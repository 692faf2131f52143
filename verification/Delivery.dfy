/**
 * A publication from end to end (src/protocol.js:260-363, 583-600, 705-798): its chunks are cached and its manifest
 * made; the receiver checks the manifest and puts bundle, private files and overlay together again.
 */
module Delivery {
  import opened Basics
  import opened Manifest

  // ---------------------------------------------------------------- putting a publication together

  function FileOf(store: Store, e: Entry): Option<File> {
    if e.deleted || e.sha256.None? then Some(File(e.path, None, e.base, e.executable))
    else
      match Retrieved(store, e.chunks, e.size, e.sha256.value)
      case None => None
      case Some(data) => Some(File(e.path, Some(data), e.base, e.executable))
  }

  function FilesOf(store: Store, entries: seq<Entry>): Option<seq<File>> {
    if entries == [] then Some([])
    else
      match (FilesOf(store, entries[..|entries| - 1]), FileOf(store, entries[|entries| - 1]))
      case (Some(front), Some(last)) => Some(front + [last])
      case _ => None
  }

  function BundleOf(store: Store, m: Manifest): Option<Option<Bytes>> {
    if m.bundleSha256.None? then Some(None)
    else
      match Retrieved(store, m.chunks, m.bundleSize, m.bundleSha256.value)
      case None => None
      case Some(data) => Some(Some(data))
  }

  /**
   * What a receiver with this store makes of a manifest: nothing if it is refused or something is missing or corrupt.
   */
  function Received(order: Order, store: Store, m: Manifest): Option<Publication> {
    match Validated(order, m)
    case None => None
    case Some(v) =>
      match (BundleOf(store, v), FilesOf(store, v.files), FilesOf(store, v.live))
      case (Some(bundle), Some(files), Some(live)) =>
        var index := if v.packIndex.Some? then Some(v.packIndex.value.data) else None;
        Some(Publication(v.hasRefs, bundle, index, files, live))
      case _ => None
  }

  // ---------------------------------------------------------------- published, then received

  ghost predicate HoldsData(store: Store, data: Option<Bytes>, chunkSize: nat)
    requires chunkSize >= 1
  {
    data.Some? ==> Holds(store, data.value, chunkSize)
  }

  ghost predicate HoldsFiles(store: Store, files: seq<File>, chunkSize: nat)
    requires chunkSize >= 1
  {
    forall i :: 0 <= i < |files| ==> HoldsData(store, files[i].data, chunkSize)
  }

  ghost predicate HoldsAll(store: Store, p: Publication, chunkSize: nat)
    requires chunkSize >= 1
  {
    HoldsData(store, p.bundle, chunkSize) && HoldsFiles(store, p.files, chunkSize)
    && HoldsFiles(store, p.live, chunkSize)
  }

  lemma FileComesBack(store: Store, f: File, chunkSize: nat)
    requires chunkSize >= 1 && HoldsData(store, f.data, chunkSize)
    ensures FileOf(store, EntryOf(f, chunkSize)) == Some(f)
  {
    if f.data.Some? { RoundTrip(store, f.data.value, chunkSize); }
  }

  lemma {:induction false} FilesComeBack(store: Store, files: seq<File>, chunkSize: nat)
    requires chunkSize >= 1 && HoldsFiles(store, files, chunkSize)
    ensures FilesOf(store, Entries(files, chunkSize)) == Some(files)
  {
    if files != [] {
      var init, last := files[..|files| - 1], files[|files| - 1];
      FilesComeBack(store, init, chunkSize);
      FileComesBack(store, last, chunkSize);
      assert Entries(files, chunkSize)[..|files| - 1] == Entries(init, chunkSize);
      assert files == init + [last];
    }
  }

  /**
   * A receiver holding every chunk ends with exactly what was published, bundle, private files and overlay byte for
   * byte, if it is within the limits and listed in the receiver's order, and with nothing otherwise.
   */
  lemma DeliveredExactlyWhen(order: Order, store: Store, p: Publication, chunkSize: nat)
    requires chunkSize >= 1 && Collation(order) && WellFormed(p) && HoldsAll(store, p, chunkSize)
    ensures Received(order, store, Published(p, chunkSize)) ==
              if Fits(p, chunkSize) && FilesInOrder(order, p.files) && FilesInOrder(order, p.live) then Some(p)
              else None
  {
    AcceptedExactlyWhen(order, p, chunkSize);
    FilesComeBack(store, p.files, chunkSize);
    FilesComeBack(store, p.live, chunkSize);
    if p.bundle.Some? { RoundTrip(store, p.bundle.value, chunkSize); }
  }

  // ---------------------------------------------------------------- received, hence published

  lemma {:induction false} FilesMatch(store: Store, entries: seq<Entry>, i: nat)
    requires FilesOf(store, entries).Some? && i < |entries|
    ensures |FilesOf(store, entries).value| == |entries|
    ensures FileOf(store, entries[i]) == Some(FilesOf(store, entries).value[i])
  {
    if i < |entries| - 1 {
      FilesMatch(store, entries[..|entries| - 1], i);
    } else if i > 0 {
      FilesMatch(store, entries[..|entries| - 1], i - 1);
    }
  }

  lemma SameContent(store: Store, e: Entry, f: File, chunkSize: nat)
    requires chunkSize >= 1 && FileOf(store, e).Some? && ContentOf(e) == ContentOf(EntryOf(f, chunkSize))
    ensures FileOf(store, e).value.data == f.data
  {}

  lemma SameFiles(store: Store, entries: seq<Entry>, files: seq<File>, chunkSize: nat)
    requires chunkSize >= 1 && FilesOf(store, entries).Some?
    requires FilesDigest(entries) == FilesDigest(Entries(files, chunkSize))
    ensures var got := FilesOf(store, entries).value;
            |got| == |files| && forall i :: 0 <= i < |files| ==>
              got[i].path == files[i].path && got[i].data == files[i].data
  {
    var states, published := FilesDigest(entries).files, FilesDigest(Entries(files, chunkSize)).files;
    assert |entries| == |states| == |published| == |files|;
    if entries != [] { FilesMatch(store, entries, 0); }
    forall i | 0 <= i < |files| ensures FilesOf(store, entries).value[i].path == files[i].path
                                     && FilesOf(store, entries).value[i].data == files[i].data
    {
      FilesMatch(store, entries, i);
      assert states[i] == published[i];
      SameContent(store, entries[i], files[i], chunkSize);
    }
  }

  lemma SameLive(store: Store, entries: seq<Entry>, files: seq<File>, chunkSize: nat)
    requires chunkSize >= 1 && FilesOf(store, entries).Some?
    requires LiveDigest(entries) == LiveDigest(Entries(files, chunkSize))
    ensures FilesOf(store, entries).value == files
  {
    var states, published := LiveDigest(entries).live, LiveDigest(Entries(files, chunkSize)).live;
    assert |entries| == |states| == |published| == |files|;
    if entries != [] { FilesMatch(store, entries, 0); }
    forall i | 0 <= i < |files| ensures FilesOf(store, entries).value[i] == files[i] {
      FilesMatch(store, entries, i);
      assert states[i] == published[i];
      SameContent(store, entries[i], files[i], chunkSize);
    }
  }

  /**
   * Whoever made the manifest and whatever the store holds, a snapshot received under a publication's id has that
   * publication's bundle, private files and overlay.
   */
  lemma IdDeterminesContent(order: Order, store: Store, m: Manifest, p: Publication, chunkSize: nat)
    requires chunkSize >= 1 && m.snapshotId == Published(p, chunkSize).snapshotId && Received(order, store, m).Some?
    ensures var q := Received(order, store, m).value;
            && q.bundle == p.bundle && q.live == p.live && |q.files| == |p.files|
            && forall i :: 0 <= i < |p.files| ==>
                 q.files[i].path == p.files[i].path && q.files[i].data == p.files[i].data
  {
    var v := Validated(order, m).value;
    SameFiles(store, v.files, p.files, chunkSize);
    SameLive(store, v.live, p.live, chunkSize);
  }

  // ---------------------------------------------------------------- the loops

  lemma HeldStays(store: Store, store': Store, data: Option<Bytes>, chunkSize: nat)
    requires chunkSize >= 1 && Genuine(store') && store.Keys <= store'.Keys && HoldsData(store, data, chunkSize)
    ensures HoldsData(store', data, chunkSize)
  {
    if data.Some? {
      var chunks := ChunksOf(data.value, chunkSize);
      forall i | 0 <= i < |chunks|
        ensures chunks[i].sha256 in store' && store'[chunks[i].sha256] == chunks[i].sha256.data {
        assert chunks[i].sha256 in store.Keys;
      }
    }
  }

  method CacheFiles(cache: ChunkStore, files: seq<File>, chunkSize: nat) returns (entries: seq<Entry>)
    requires chunkSize >= 1 && Genuine(cache.store)
    modifies cache
    ensures entries == Entries(files, chunkSize)
    ensures Genuine(cache.store) && old(cache.store.Keys) <= cache.store.Keys
    ensures HoldsFiles(cache.store, files, chunkSize)
  {
    entries := [];
    for i := 0 to |files|
      invariant entries == Entries(files[..i], chunkSize)
      invariant Genuine(cache.store) && old(cache.store.Keys) <= cache.store.Keys
      invariant HoldsFiles(cache.store, files[..i], chunkSize)
    {
      var file := files[i];
      ghost var before := cache.store;
      var chunks := [];
      if file.data.Some? { chunks := cache.CacheChunks(file.data.value, chunkSize); }
      entries := entries + [
        if file.data.None? then Entry(file.path, true, 0, None, file.base, file.executable, [])
        else Entry(file.path, false, |file.data.value|, Some(OfBytes(file.data.value)), file.base, file.executable,
                   chunks)];
      forall j | 0 <= j < i ensures HoldsData(cache.store, files[j].data, chunkSize) {
        assert files[..i][j] == files[..i + 1][j];
        HeldStays(before, cache.store, files[j].data, chunkSize);
      }
    }
    assert files[..|files|] == files;
  }

  /** Everything a manifest lists is in the cache once the manifest is made. */
  method Publish(cache: ChunkStore, p: Publication, chunkSize: nat) returns (m: Manifest)
    requires chunkSize >= 1 && Genuine(cache.store)
    modifies cache
    ensures m == Published(p, chunkSize)
    ensures Genuine(cache.store) && HoldsAll(cache.store, p, chunkSize)
  {
    var bundle := if p.bundle.Some? then p.bundle.value else [];
    var chunks := cache.CacheChunks(bundle, chunkSize);
    ghost var withBundle := cache.store;
    var files := CacheFiles(cache, p.files, chunkSize);
    ghost var withFiles := cache.store;
    var live := CacheFiles(cache, p.live, chunkSize);
    HeldStays(withBundle, cache.store, p.bundle, chunkSize);
    forall i | 0 <= i < |p.files| ensures HoldsData(cache.store, p.files[i].data, chunkSize) {
      HeldStays(withFiles, cache.store, p.files[i].data, chunkSize);
    }
    var bundleSha256 := if p.bundle.Some? then Some(OfBytes(bundle)) else None;
    m := Manifest(
      OfSnapshot(bundleSha256, FilesDigest(files), LiveDigest(live), chunkSize), chunkSize, p.hasRefs,
      |bundle|, bundleSha256, PackIndexOf(p.packIndex), chunks, FilesDigest(files), files, LiveDigest(live), live);
  }

  method RetrieveFiles(cache: ChunkStore, entries: seq<Entry>) returns (files: Option<seq<File>>)
    ensures files == FilesOf(cache.store, entries)
  {
    var got: seq<File> := [];
    for i := 0 to |entries|
      invariant FilesOf(cache.store, entries[..i]) == Some(got)
    {
      assert entries[..i + 1][..i] == entries[..i];
      var e := entries[i];
      var data: Option<Bytes> := None;
      if !e.deleted && e.sha256.Some? {
        data := cache.RetrieveChunks(e.chunks, e.size, e.sha256.value);
        if data.None? {
          NoneBefore(cache.store, entries, i);
          return None;
        }
      }
      got := got + [File(e.path, data, e.base, e.executable)];
    }
    assert entries[..|entries|] == entries;
    files := Some(got);
  }

  lemma {:induction false} NoneBefore(store: Store, entries: seq<Entry>, i: nat)
    requires i < |entries| && FileOf(store, entries[i]).None?
    ensures FilesOf(store, entries).None?
  {
    if FilesOf(store, entries).Some? { FilesMatch(store, entries, i); }
  }

  method Receive(order: Order, cache: ChunkStore, m: Manifest) returns (p: Option<Publication>)
    ensures p == Received(order, cache.store, m)
  {
    var accepted := ValidateManifest(order, m);
    if accepted.None? { return None; }
    var v := accepted.value;
    var bundle: Option<Bytes> := None;
    if v.bundleSha256.Some? {
      bundle := cache.RetrieveChunks(v.chunks, v.bundleSize, v.bundleSha256.value);
      if bundle.None? { return None; }
    }
    var files := RetrieveFiles(cache, v.files);
    if files.None? { return None; }
    var live := RetrieveFiles(cache, v.live);
    if live.None? { return None; }
    var index := if v.packIndex.Some? then Some(v.packIndex.value.data) else None;
    p := Some(Publication(v.hasRefs, bundle, index, files.value, live.value));
  }
}
