/**
 * src/protocol.js:69-78, 294-363, 751-798, 1052-1196: a snapshot is published as a manifest over chunks; a
 * receiver checks the manifest, recomputing its digests, and puts the chunks together again.
 */
module Manifest {
  import opened Basics

  const MAX_CHUNKS: nat := 1_000_000
  const MAX_FILES: nat := 100_000
  const MAX_SAFE_INTEGER: nat := 9_007_199_254_740_991

  /** Digests, idealised as the value each is computed from; how those values are encoded is in module Identity. */
  datatype Fingerprint =
    | OfBytes(data: Bytes)
    | OfFiles(files: seq<FileState>)
    | OfLive(live: seq<LiveState>)
    | OfSnapshot(bundle: Option<Fingerprint>, filesDigest: Fingerprint, liveDigest: Fingerprint, chunkSize: nat)

  /** The fields of an entry its digest covers; no content digest is a deletion. */
  datatype FileState = FileState(path: Path, content: Option<(Fingerprint, nat)>)
  datatype LiveState = LiveState(path: Path, content: Option<(Fingerprint, nat)>, base: Option<Fingerprint>,
                                 executable: bool)

  datatype Chunk = Chunk(sha256: Fingerprint, size: nat)
  /** An entry of either list; a private file has no base and is never executable. */
  datatype Entry = Entry(path: Path, deleted: bool, size: nat, sha256: Option<Fingerprint>, base: Option<Fingerprint>,
                         executable: bool, chunks: seq<Chunk>)
  datatype PackIndex = PackIndex(size: nat, sha256: Fingerprint, data: Bytes)

  datatype Manifest = Manifest(
    snapshotId: Fingerprint, chunkSize: nat, hasRefs: bool,
    bundleSize: nat, bundleSha256: Option<Fingerprint>, packIndex: Option<PackIndex>, chunks: seq<Chunk>,
    workspaceDigest: Fingerprint, files: seq<Entry>, liveDigest: Fingerprint, live: seq<Entry>)

  // ---------------------------------------------------------------- publishing

  /** A file as a snapshot of the working tree lists it. */
  datatype File = File(path: Path, data: Option<Bytes>, base: Option<Fingerprint>, executable: bool)

  datatype Publication = Publication(hasRefs: bool, bundle: Option<Bytes>, packIndex: Option<Bytes>, files: seq<File>,
                                     live: seq<File>)

  /** Pieces of the chunk size, and what is left. */
  function ChunksOf(data: Bytes, chunkSize: nat): seq<Chunk>
    requires chunkSize >= 1
    decreases |data|
  {
    if data == [] then []
    else
      var n := if chunkSize <= |data| then chunkSize else |data|;
      [Chunk(OfBytes(data[..n]), n)] + ChunksOf(data[n..], chunkSize)
  }

  /** As many chunks as it takes, all full but the last. */
  lemma {:induction false} ChunkCount(data: Bytes, chunkSize: nat)
    requires chunkSize >= 1
    ensures var count := |ChunksOf(data, chunkSize)|;
            |data| <= count * chunkSize && (data != [] ==> (count - 1) * chunkSize < |data|)
    decreases |data|
  {
    if data != [] {
      var n := if chunkSize <= |data| then chunkSize else |data|;
      var rest := |ChunksOf(data[n..], chunkSize)|;
      ChunkCount(data[n..], chunkSize);
      assert (1 + rest) * chunkSize == chunkSize + rest * chunkSize;
      if data[n..] != [] { assert rest * chunkSize == chunkSize + (rest - 1) * chunkSize; }
    }
  }

  function EntryOf(f: File, chunkSize: nat): Entry
    requires chunkSize >= 1
  {
    match f.data
    case None => Entry(f.path, true, 0, None, f.base, f.executable, [])
    case Some(data) => Entry(f.path, false, |data|, Some(OfBytes(data)), f.base, f.executable,
                             ChunksOf(data, chunkSize))
  }

  function Entries(files: seq<File>, chunkSize: nat): seq<Entry>
    requires chunkSize >= 1
  {
    seq(|files|, i requires 0 <= i < |files| => EntryOf(files[i], chunkSize))
  }

  function ContentOf(e: Entry): Option<(Fingerprint, nat)> {
    if e.deleted || e.sha256.None? then None else Some((e.sha256.value, e.size))
  }

  /** workspaceDigest and liveWorkspaceDigest. */
  function FilesDigest(files: seq<Entry>): Fingerprint {
    OfFiles(seq(|files|, i requires 0 <= i < |files| => FileState(files[i].path, ContentOf(files[i]))))
  }

  function LiveDigest(live: seq<Entry>): Fingerprint {
    OfLive(seq(|live|, i requires 0 <= i < |live| =>
      LiveState(live[i].path, ContentOf(live[i]), live[i].base, live[i].executable)))
  }

  function PackIndexOf(index: Option<Bytes>): Option<PackIndex> {
    if index.Some? then Some(PackIndex(|index.value|, OfBytes(index.value), index.value)) else None
  }

  function Published(p: Publication, chunkSize: nat): Manifest
    requires chunkSize >= 1
  {
    var bundle := if p.bundle.Some? then p.bundle.value else [];
    var bundleSha256 := if p.bundle.Some? then Some(OfBytes(bundle)) else None;
    var files, live := Entries(p.files, chunkSize), Entries(p.live, chunkSize);
    Manifest(
      OfSnapshot(bundleSha256, FilesDigest(files), LiveDigest(live), chunkSize), chunkSize, p.hasRefs,
      |bundle|, bundleSha256, PackIndexOf(p.packIndex), ChunksOf(bundle, chunkSize),
      FilesDigest(files), files, LiveDigest(live), live)
  }

  // ---------------------------------------------------------------- sorting by a collation

  /** localeCompare(a, b) <= 0. */
  type Order = (Path, Path) -> bool

  ghost predicate Collation(order: Order) {
    (forall a, b :: order(a, b) || order(b, a)) && (forall a, b, c :: order(a, b) && order(b, c) ==> order(a, c))
  }

  predicate InOrder(order: Order, entries: seq<Entry>) {
    forall i, j :: 0 <= i < j < |entries| ==> order(entries[i].path, entries[j].path)
  }

  /** After every entry that is not greater: equal paths stay in the order they came. */
  function Insert(order: Order, sorted: seq<Entry>, e: Entry): seq<Entry> {
    if sorted == [] || order(sorted[|sorted| - 1].path, e.path) then sorted + [e]
    else Insert(order, sorted[..|sorted| - 1], e) + [sorted[|sorted| - 1]]
  }

  /** A stable sort; for a collation there is only one result. */
  function SortBy(order: Order, entries: seq<Entry>): seq<Entry> {
    if entries == [] then [] else Insert(order, SortBy(order, entries[..|entries| - 1]), entries[|entries| - 1])
  }

  lemma {:induction false} InsertInOrder(order: Order, sorted: seq<Entry>, e: Entry)
    requires Collation(order) && InOrder(order, sorted)
    ensures InOrder(order, Insert(order, sorted, e))
    ensures forall x :: x in Insert(order, sorted, e) ==> x == e || x in sorted
  {
    var n := |sorted| - 1;
    if sorted == [] || order(sorted[n].path, e.path) {
      forall i, j | 0 <= i < j < |sorted + [e]| ensures order((sorted + [e])[i].path, (sorted + [e])[j].path) {
        if j == |sorted| && i < n { assert order(sorted[i].path, sorted[n].path); }
      }
    } else {
      InsertInOrder(order, sorted[..n], e);
      var before := Insert(order, sorted[..n], e);
      forall i | 0 <= i < |before| ensures order(before[i].path, sorted[n].path) {
        assert before[i] in before;
        if before[i] != e { var k :| 0 <= k < n && sorted[k] == before[i]; }
      }
    }
  }

  lemma {:induction false} SortIsInOrder(order: Order, entries: seq<Entry>)
    requires Collation(order)
    ensures InOrder(order, SortBy(order, entries))
  {
    if entries != [] {
      SortIsInOrder(order, entries[..|entries| - 1]);
      InsertInOrder(order, SortBy(order, entries[..|entries| - 1]), entries[|entries| - 1]);
    }
  }

  lemma InOrderPrefix(order: Order, entries: seq<Entry>, n: nat)
    requires InOrder(order, entries) && n <= |entries|
    ensures InOrder(order, entries[..n])
  {}

  lemma InsertAtEnd(order: Order, init: seq<Entry>, last: Entry)
    requires InOrder(order, init + [last])
    ensures Insert(order, init, last) == init + [last]
  {
    if init != [] {
      var n := |init| - 1;
      assert (init + [last])[n] == init[n] && (init + [last])[n + 1] == last;
      assert order(init[n].path, last.path);
    }
  }

  /** Sorting leaves a list alone exactly when it is in order. */
  lemma {:induction false} SortLeavesAlone(order: Order, entries: seq<Entry>)
    requires Collation(order)
    ensures SortBy(order, entries) == entries <==> InOrder(order, entries)
  {
    SortIsInOrder(order, entries);
    if InOrder(order, entries) && entries != [] {
      var init, last := entries[..|entries| - 1], entries[|entries| - 1];
      assert entries == init + [last];
      InOrderPrefix(order, entries, |entries| - 1);
      SortLeavesAlone(order, init);
      InsertAtEnd(order, init, last);
    }
  }

  // ---------------------------------------------------------------- checking

  function TotalSize(chunks: seq<Chunk>): nat {
    if chunks == [] then 0 else TotalSize(chunks[..|chunks| - 1]) + chunks[|chunks| - 1].size
  }

  function TotalChunks(entries: seq<Entry>): nat {
    if entries == [] then 0 else TotalChunks(entries[..|entries| - 1]) + |entries[|entries| - 1].chunks|
  }

  predicate ChunksValid(chunks: seq<Chunk>) {
    forall i :: 0 <= i < |chunks| ==> 1 <= chunks[i].size <= MAX_SAFE_INTEGER
  }

  predicate EntryValid(e: Entry) {
    && ChunksValid(e.chunks) && e.size <= MAX_SAFE_INTEGER && TotalSize(e.chunks) == e.size
    && (if e.deleted then e.size == 0 && e.sha256.None? && e.chunks == [] && !e.executable else e.sha256.Some?)
  }

  predicate ListValid(entries: seq<Entry>) {
    && |entries| <= MAX_FILES && TotalChunks(entries) <= MAX_CHUNKS
    && (forall i :: 0 <= i < |entries| ==> EntryValid(entries[i]))
    && (forall i, j :: 0 <= i < j < |entries| ==> entries[i].path != entries[j].path)
  }

  predicate BundleValid(m: Manifest) {
    && m.bundleSize <= MAX_SAFE_INTEGER && |m.chunks| <= MAX_CHUNKS && ChunksValid(m.chunks)
    && TotalSize(m.chunks) == m.bundleSize
    && (m.bundleSize == 0 <==> m.bundleSha256.None?)
    && (m.packIndex.Some? ==> var index := m.packIndex.value;
          1 <= index.size <= MAX_SAFE_INTEGER && |index.data| == index.size && OfBytes(index.data) == index.sha256)
    && (m.bundleSize > 0 ==> m.hasRefs)
    && (m.bundleSize == 0 <==> m.chunks == [])
  }

  /** The manifest as the receiver holds it once checked: its lists sorted by the receiver's collation. */
  function Validated(order: Order, m: Manifest): Option<Manifest> {
    var files, live := SortBy(order, m.files), SortBy(order, m.live);
    if BundleValid(m) && ListValid(m.files) && FilesDigest(files) == m.workspaceDigest
       && 1 <= m.chunkSize <= MAX_SAFE_INTEGER && ListValid(m.live) && LiveDigest(live) == m.liveDigest
       && OfSnapshot(m.bundleSha256, m.workspaceDigest, m.liveDigest, m.chunkSize) == m.snapshotId
    then Some(m.(files := files, live := live)) else None
  }

  // ---------------------------------------------------------------- what is published is accepted

  lemma {:induction false} TotalSizeFront(c: Chunk, rest: seq<Chunk>)
    ensures TotalSize([c] + rest) == c.size + TotalSize(rest)
  {
    var all := [c] + rest;
    if rest == [] {
      assert all[..|all| - 1] == [];
    } else {
      TotalSizeFront(c, rest[..|rest| - 1]);
      assert all[..|all| - 1] == [c] + rest[..|rest| - 1];
    }
  }

  lemma {:induction false} ChunksAddUp(data: Bytes, chunkSize: nat)
    requires chunkSize >= 1
    ensures TotalSize(ChunksOf(data, chunkSize)) == |data|
    ensures |data| <= MAX_SAFE_INTEGER ==> ChunksValid(ChunksOf(data, chunkSize))
    decreases |data|
  {
    if data != [] {
      var n := if chunkSize <= |data| then chunkSize else |data|;
      ChunksAddUp(data[n..], chunkSize);
      TotalSizeFront(Chunk(OfBytes(data[..n]), n), ChunksOf(data[n..], chunkSize));
    }
  }

  /**
   * What git and the working tree hand over: a bundle is never empty and comes with refs, an index is never empty,
   * paths are listed once.
   */
  predicate WellFormed(p: Publication) {
    && (p.bundle.Some? ==> p.bundle.value != [] && p.hasRefs)
    && (p.packIndex.Some? ==> p.packIndex.value != [])
    && Listed(p.files) && Listed(p.live)
  }

  predicate Listed(files: seq<File>) {
    && (forall i, j :: 0 <= i < j < |files| ==> files[i].path != files[j].path)
    && (forall i :: 0 <= i < |files| && files[i].data.None? ==> !files[i].executable)
  }

  predicate Sized(data: Option<Bytes>) {
    data.Some? ==> |data.value| <= MAX_SAFE_INTEGER
  }

  /** The limits a receiver sets on one list. */
  predicate ListFits(files: seq<File>, chunkSize: nat)
    requires chunkSize >= 1
  {
    && |files| <= MAX_FILES && TotalChunks(Entries(files, chunkSize)) <= MAX_CHUNKS
    && forall i :: 0 <= i < |files| ==> Sized(files[i].data)
  }

  predicate Fits(p: Publication, chunkSize: nat)
    requires chunkSize >= 1
  {
    && chunkSize <= MAX_SAFE_INTEGER && Sized(p.bundle) && Sized(p.packIndex)
    && |ChunksOf(if p.bundle.Some? then p.bundle.value else [], chunkSize)| <= MAX_CHUNKS
    && ListFits(p.files, chunkSize) && ListFits(p.live, chunkSize)
  }

  predicate FilesInOrder(order: Order, files: seq<File>) {
    forall i, j :: 0 <= i < j < |files| ==> order(files[i].path, files[j].path)
  }

  lemma EntryIsValid(f: File, chunkSize: nat)
    requires chunkSize >= 1 && (f.data.None? ==> !f.executable)
    ensures EntryValid(EntryOf(f, chunkSize)) <==> Sized(f.data)
  {
    if f.data.Some? { ChunksAddUp(f.data.value, chunkSize); }
  }

  lemma ListIsValid(files: seq<File>, chunkSize: nat)
    requires chunkSize >= 1 && Listed(files)
    ensures ListValid(Entries(files, chunkSize)) <==> ListFits(files, chunkSize)
  {
    var entries := Entries(files, chunkSize);
    forall i | 0 <= i < |files| ensures EntryValid(entries[i]) <==> Sized(files[i].data) {
      EntryIsValid(files[i], chunkSize);
    }
  }

  lemma BundleIsValid(p: Publication, chunkSize: nat)
    requires chunkSize >= 1 && WellFormed(p)
    ensures BundleValid(Published(p, chunkSize)) <==>
      Sized(p.bundle) && Sized(p.packIndex)
      && |ChunksOf(if p.bundle.Some? then p.bundle.value else [], chunkSize)| <= MAX_CHUNKS
  {
    ChunksAddUp(if p.bundle.Some? then p.bundle.value else [], chunkSize);
  }

  /** The digest recomputed over the sorted list is the published one exactly when the list was in that order. */
  lemma SortedDigestAgrees(order: Order, files: seq<File>, entries: seq<Entry>)
    requires Collation(order) && |entries| == |files|
    requires forall i :: 0 <= i < |files| ==> entries[i].path == files[i].path
    ensures FilesDigest(SortBy(order, entries)) == FilesDigest(entries) <==> FilesInOrder(order, files)
    ensures LiveDigest(SortBy(order, entries)) == LiveDigest(entries) <==> FilesInOrder(order, files)
    ensures FilesInOrder(order, files) ==> SortBy(order, entries) == entries
  {
    var sorted := SortBy(order, entries);
    SortLeavesAlone(order, entries);
    SortIsInOrder(order, entries);
    assert InOrder(order, entries) <==> FilesInOrder(order, files);
    if FilesDigest(sorted) == FilesDigest(entries) {
      SamePathsSameOrder(order, sorted, entries, FilesDigest(sorted).files, FilesDigest(entries).files);
    }
    if LiveDigest(sorted) == LiveDigest(entries) {
      SameLivePathsSameOrder(order, sorted, entries, LiveDigest(sorted).live, LiveDigest(entries).live);
    }
  }

  lemma SamePathsSameOrder(order: Order, a: seq<Entry>, b: seq<Entry>, s: seq<FileState>, t: seq<FileState>)
    requires InOrder(order, a) && |s| == |a| && |t| == |b| && s == t
    requires (forall i :: 0 <= i < |a| ==> s[i].path == a[i].path)
    requires forall i :: 0 <= i < |b| ==> t[i].path == b[i].path
    ensures InOrder(order, b)
  {
    forall i, j | 0 <= i < j < |b| ensures order(b[i].path, b[j].path) {
      assert s[i].path == a[i].path && s[j].path == a[j].path;
    }
  }

  lemma SameLivePathsSameOrder(order: Order, a: seq<Entry>, b: seq<Entry>, s: seq<LiveState>, t: seq<LiveState>)
    requires InOrder(order, a) && |s| == |a| && |t| == |b| && s == t
    requires (forall i :: 0 <= i < |a| ==> s[i].path == a[i].path)
    requires forall i :: 0 <= i < |b| ==> t[i].path == b[i].path
    ensures InOrder(order, b)
  {
    forall i, j | 0 <= i < j < |b| ensures order(b[i].path, b[j].path) {
      assert s[i].path == a[i].path && s[j].path == a[j].path;
    }
  }

  /**
   * What is published is accepted, unchanged, exactly when it is within the receiver's limits and both lists
   * are in the order of the receiver's collation. Private files are listed in code-unit order.
   */
  lemma AcceptedExactlyWhen(order: Order, p: Publication, chunkSize: nat)
    requires chunkSize >= 1 && Collation(order) && WellFormed(p)
    ensures var m := Published(p, chunkSize);
            Validated(order, m) ==
              if Fits(p, chunkSize) && FilesInOrder(order, p.files) && FilesInOrder(order, p.live) then Some(m)
              else None
  {
    var m := Published(p, chunkSize);
    BundleIsValid(p, chunkSize);
    ListIsValid(p.files, chunkSize);
    ListIsValid(p.live, chunkSize);
    SortedDigestAgrees(order, p.files, m.files);
    SortedDigestAgrees(order, p.live, m.live);
  }

  // ---------------------------------------------------------------- putting together

  type Store = map<Fingerprint, Bytes>

  function RetrieveChunk(store: Store, c: Chunk): Option<Bytes> {
    if c.sha256 !in store then None
    else
      var data := store[c.sha256];
      if |data| == c.size && OfBytes(data) == c.sha256 then Some(data) else None
  }

  function RetrieveAll(store: Store, chunks: seq<Chunk>): Option<Bytes> {
    if chunks == [] then Some([])
    else
      match (RetrieveAll(store, chunks[..|chunks| - 1]), RetrieveChunk(store, chunks[|chunks| - 1]))
      case (Some(front), Some(last)) => Some(front + last)
      case _ => None
  }

  function Retrieved(store: Store, chunks: seq<Chunk>, size: nat, sha256: Fingerprint): Option<Bytes> {
    match RetrieveAll(store, chunks)
    case None => None
    case Some(data) => if |data| == size && OfBytes(data) == sha256 then Some(data) else None
  }

  /** Nothing but the content a digest names is ever retrieved, whatever the store holds. */
  lemma RetrievedIsGenuine(store: Store, chunks: seq<Chunk>, data: Bytes, size: nat)
    ensures Retrieved(store, chunks, size, OfBytes(data)).Some? ==>
              Retrieved(store, chunks, size, OfBytes(data)) == Some(data)
  {}

  ghost predicate AllHeld(store: Store, chunks: seq<Chunk>) {
    forall i :: 0 <= i < |chunks| ==>
      var c := chunks[i]; c.sha256.OfBytes? && c.sha256 in store && store[c.sha256] == c.sha256.data
  }

  /** The store has each chunk of the data under its digest. */
  ghost predicate Holds(store: Store, data: Bytes, chunkSize: nat)
    requires chunkSize >= 1
  {
    AllHeld(store, ChunksOf(data, chunkSize))
  }

  lemma {:induction false} RetrieveFront(store: Store, c: Chunk, rest: seq<Chunk>)
    ensures RetrieveAll(store, [c] + rest) ==
      match (RetrieveChunk(store, c), RetrieveAll(store, rest))
      case (Some(first), Some(others)) => Some(first + others)
      case _ => None
  {
    var all := [c] + rest;
    if rest == [] {
      assert all[..|all| - 1] == [];
      assert forall d: Bytes :: [] + d == d + [];
    } else {
      RetrieveFront(store, c, rest[..|rest| - 1]);
      assert all[..|all| - 1] == [c] + rest[..|rest| - 1];
      assert forall a: Bytes, b: Bytes, d: Bytes :: a + (b + d) == (a + b) + d;
    }
  }

  lemma HeldParts(store: Store, first: Chunk, rest: seq<Chunk>)
    requires AllHeld(store, [first] + rest)
    ensures AllHeld(store, rest) && first.sha256.OfBytes?
    ensures |first.sha256.data| == first.size ==> RetrieveChunk(store, first) == Some(first.sha256.data)
  {
    assert ([first] + rest)[0] == first;
    forall i | 0 <= i < |rest|
      ensures rest[i].sha256.OfBytes? && rest[i].sha256 in store && store[rest[i].sha256] == rest[i].sha256.data
    {
      assert ([first] + rest)[i + 1] == rest[i];
    }
  }

  lemma {:induction false} ChunksComeBack(store: Store, data: Bytes, chunkSize: nat)
    requires chunkSize >= 1 && Holds(store, data, chunkSize)
    ensures RetrieveAll(store, ChunksOf(data, chunkSize)) == Some(data)
    decreases |data|
  {
    if data != [] {
      var n := if chunkSize <= |data| then chunkSize else |data|;
      var first, rest := Chunk(OfBytes(data[..n]), n), ChunksOf(data[n..], chunkSize);
      HeldParts(store, first, rest);
      ChunksComeBack(store, data[n..], chunkSize);
      RetrieveFront(store, first, rest);
      assert data == data[..n] + data[n..];
    }
  }

  /** A receiver with every chunk gets back the bundle and every file, byte for byte. */
  lemma RoundTrip(store: Store, data: Bytes, chunkSize: nat)
    requires chunkSize >= 1 && Holds(store, data, chunkSize)
    ensures Retrieved(store, ChunksOf(data, chunkSize), |data|, OfBytes(data)) == Some(data)
  {
    ChunksComeBack(store, data, chunkSize);
  }

  // ---------------------------------------------------------------- where code-unit order will not do

  /** Two private files whose names a collation puts the other way round: the snapshot is refused everywhere. */
  lemma MixedCaseIsRefused(order: Order)
    requires Collation(order) && !order("B", "a")
    ensures var p := Publication(false, None, None,
                                 [File("B", Some([1]), None, false), File("a", Some([2]), None, false)], []);
            WellFormed(p) && Fits(p, 1) && Validated(order, Published(p, 1)) == None
  {
    var p := Publication(false, None, None, [File("B", Some([1]), None, false), File("a", Some([2]), None, false)], []);
    var entries := Entries(p.files, 1);
    assert ChunksOf([1], 1) == [Chunk(OfBytes([1][..1]), 1)] && ChunksOf([2], 1) == [Chunk(OfBytes([2][..1]), 1)];
    assert entries[..1][..0] == [];
    assert TotalChunks(entries[..1]) == 1;
    assert TotalChunks(entries) == 2;
    assert !FilesInOrder(order, p.files) by { assert p.files[0].path == "B" && p.files[1].path == "a"; }
    AcceptedExactlyWhen(order, p, 1);
  }

  // ---------------------------------------------------------------- the loops

  /** Each chunk lies under its own digest. */
  ghost predicate Genuine(store: Store) {
    forall d :: d in store ==> OfBytes(store[d]) == d
  }

  class ChunkStore {
    var store: Store

    constructor ()
      ensures store == map[]
    {
      store := map[];
    }

    method WriteChunk(sha256: Fingerprint, data: Bytes)
      requires sha256 == OfBytes(data) && Genuine(store)
      modifies this
      ensures store == old(store)[sha256 := data] && Genuine(store)
    {
      if sha256 !in store { store := store[sha256 := data]; }
      assert store == old(store)[sha256 := data];
    }

    /** One piece more is stored and listed. */
    method CacheChunk(value: Bytes, chunks: seq<Chunk>) returns (longer: seq<Chunk>)
      requires Genuine(store) && AllHeld(store, chunks)
      modifies this
      ensures longer == chunks + [Chunk(OfBytes(value), |value|)]
      ensures Genuine(store) && old(store.Keys) <= store.Keys && AllHeld(store, longer)
    {
      ghost var before := store;
      WriteChunk(OfBytes(value), value);
      HeldMore(before, chunks, value, store);
      longer := chunks + [Chunk(OfBytes(value), |value|)];
    }

    /** Cuts the data at multiples of the chunk size and stores each piece. */
    method CacheChunks(data: Bytes, chunkSize: nat) returns (chunks: seq<Chunk>)
      requires chunkSize >= 1 && Genuine(store)
      modifies this
      ensures chunks == ChunksOf(data, chunkSize)
      ensures Genuine(store) && old(store.Keys) <= store.Keys && Holds(store, data, chunkSize)
    {
      chunks := [];
      var offset := 0;
      CutBegins(data, chunkSize);
      while offset < |data|
        invariant Genuine(store) && old(store.Keys) <= store.Keys
        invariant CutTo(data, chunkSize, offset, chunks) && AllHeld(store, chunks)
        decreases |data| - offset
      {
        var end := if offset + chunkSize <= |data| then offset + chunkSize else |data|;
        NextChunk(data, chunkSize, offset, end, chunks);
        chunks := CacheChunk(data[offset..end], chunks);
        offset := end;
      }
      CutEnds(data, chunkSize, offset, chunks);
    }

    method RetrieveChunks(chunks: seq<Chunk>, expectedSize: nat, expectedDigest: Fingerprint)
      returns (data: Option<Bytes>)
      ensures data == Retrieved(store, chunks, expectedSize, expectedDigest)
    {
      var value: Option<Bytes> := Some([]);
      for i := 0 to |chunks|
        invariant value == RetrieveAll(store, chunks[..i])
      {
        assert chunks[..i + 1][..i] == chunks[..i];
        var next := RetrieveChunk(store, chunks[i]);
        value := if value.Some? && next.Some? then Some(value.value + next.value) else None;
      }
      assert chunks[..|chunks|] == chunks;
      if value.None? || |value.value| != expectedSize || OfBytes(value.value) != expectedDigest { return None; }
      data := value;
    }
  }

  lemma HeldMore(before: Store, chunks: seq<Chunk>, value: Bytes, store: Store)
    requires Genuine(before) && AllHeld(before, chunks) && store == before[OfBytes(value) := value]
    ensures AllHeld(store, chunks + [Chunk(OfBytes(value), |value|)]) && before.Keys <= store.Keys
  {}

  /** How far the cutting has come: these chunks, then those of what is left. */
  ghost predicate CutTo(data: Bytes, chunkSize: nat, offset: nat, chunks: seq<Chunk>)
    requires chunkSize >= 1
  {
    offset <= |data| && chunks + ChunksOf(data[offset..], chunkSize) == ChunksOf(data, chunkSize)
  }

  lemma CutBegins(data: Bytes, chunkSize: nat)
    requires chunkSize >= 1
    ensures CutTo(data, chunkSize, 0, [])
  {
    assert data[0..] == data;
  }

  lemma CutEnds(data: Bytes, chunkSize: nat, offset: nat, chunks: seq<Chunk>)
    requires chunkSize >= 1 && offset >= |data| && CutTo(data, chunkSize, offset, chunks)
    ensures chunks == ChunksOf(data, chunkSize)
  {
    assert data[offset..] == [];
  }

  lemma NextChunk(data: Bytes, chunkSize: nat, offset: nat, end: nat, chunks: seq<Chunk>)
    requires chunkSize >= 1 && offset < |data|
    requires end == if offset + chunkSize <= |data| then offset + chunkSize else |data|
    requires CutTo(data, chunkSize, offset, chunks)
    ensures CutTo(data, chunkSize, end, chunks + [Chunk(OfBytes(data[offset..end]), end - offset)])
  {
    var rest, chunk := data[offset..], Chunk(OfBytes(data[offset..end]), end - offset);
    assert rest[..end - offset] == data[offset..end] && rest[end - offset..] == data[end..];
    assert chunks + ([chunk] + ChunksOf(data[end..], chunkSize)) == chunks + [chunk] + ChunksOf(data[end..], chunkSize);
  }

  /** The receiver's loop over one list: each entry by itself, no path twice, the chunks within their limit. */
  method CheckList(entries: seq<Entry>) returns (ok: bool)
    ensures ok == ListValid(entries)
  {
    if |entries| > MAX_FILES { return false; }
    var seen: set<Path> := {};
    var totalChunks := 0;
    for i := 0 to |entries|
      invariant seen == PathsOf(entries, i) && PassedUpTo(entries, i)
      invariant totalChunks == TotalChunks(entries[..i]) <= MAX_CHUNKS
    {
      var raw := entries[i];
      if raw.path in seen { return false; }
      seen := seen + {raw.path};
      assert entries[..i + 1][..i] == entries[..i];
      totalChunks := totalChunks + |raw.chunks|;
      MoreChunks(entries, i + 1);
      if totalChunks > MAX_CHUNKS || !EntryValid(raw) { return false; }
      PassedNext(entries, i);
    }
    assert entries[..|entries|] == entries;
    ok := true;
  }

  function PathsOf(entries: seq<Entry>, n: nat): set<Path>
    requires n <= |entries|
  {
    set j | 0 <= j < n :: entries[j].path
  }

  ghost predicate PassedUpTo(entries: seq<Entry>, n: nat)
    requires n <= |entries|
  {
    && (forall j :: 0 <= j < n ==> EntryValid(entries[j]))
    && (forall j, k :: 0 <= j < k < n ==> entries[j].path != entries[k].path)
  }

  lemma PassedNext(entries: seq<Entry>, n: nat)
    requires n < |entries| && PassedUpTo(entries, n) && EntryValid(entries[n])
    requires entries[n].path !in PathsOf(entries, n)
    ensures PassedUpTo(entries, n + 1) && PathsOf(entries, n + 1) == PathsOf(entries, n) + {entries[n].path}
  {
    forall j | 0 <= j < n ensures entries[j].path in PathsOf(entries, n) {}
  }

  lemma {:induction false} MoreChunks(entries: seq<Entry>, i: nat)
    requires i <= |entries|
    ensures TotalChunks(entries[..i]) <= TotalChunks(entries)
    decreases |entries| - i
  {
    if i == |entries| {
      assert entries[..i] == entries;
    } else {
      assert entries[..i + 1][..i] == entries[..i];
      MoreChunks(entries, i + 1);
    }
  }

  method ValidateManifest(order: Order, m: Manifest) returns (accepted: Option<Manifest>)
    ensures accepted == Validated(order, m)
  {
    if !BundleValid(m) { return None; }
    var filesOk := CheckList(m.files);
    if !filesOk { return None; }
    var files := SortBy(order, m.files);
    if FilesDigest(files) != m.workspaceDigest || m.chunkSize < 1 || m.chunkSize > MAX_SAFE_INTEGER { return None; }
    var liveOk := CheckList(m.live);
    if !liveOk { return None; }
    var live := SortBy(order, m.live);
    if LiveDigest(live) != m.liveDigest { return None; }
    if OfSnapshot(m.bundleSha256, m.workspaceDigest, m.liveDigest, m.chunkSize) != m.snapshotId { return None; }
    accepted := Some(m.(files := files, live := live));
  }
}
