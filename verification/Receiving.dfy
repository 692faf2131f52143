/**
 * What can be received at all (src/protocol.js:577-600, 1052-1196), whoever made the manifest: a publication of its
 * own, under the id it would be published with, naming no path twice, which is all that an import relies on.
 */
module Receiving {
  import opened Basics
  import opened Manifest
  import opened Delivery
  import Workspace
  import Sync
  import Git
  import LocalEdits

  predicate NoPathTwice(entries: seq<Entry>) {
    forall i, j :: 0 <= i < j < |entries| ==> entries[i].path != entries[j].path
  }

  // ---------------------------------------------------------------- sorting loses and repeats nothing

  lemma SplitLast(entries: seq<Entry>)
    requires entries != []
    ensures multiset(entries) == multiset(entries[..|entries| - 1]) + multiset{entries[|entries| - 1]}
  {
    assert entries == entries[..|entries| - 1] + [entries[|entries| - 1]];
  }

  lemma AppendIsAdd(entries: seq<Entry>, e: Entry)
    ensures multiset(entries + [e]) == multiset(entries) + multiset{e}
  {}

  lemma {:induction false} InsertIsAdd(order: Order, sorted: seq<Entry>, e: Entry)
    ensures multiset(Insert(order, sorted, e)) == multiset(sorted) + multiset{e}
  {
    if sorted == [] || order(sorted[|sorted| - 1].path, e.path) {
      AppendIsAdd(sorted, e);
    } else {
      var init, last := sorted[..|sorted| - 1], sorted[|sorted| - 1];
      InsertIsAdd(order, init, e);
      AppendIsAdd(Insert(order, init, e), last);
      SplitLast(sorted);
    }
  }

  /** Sorting is a permutation. */
  lemma {:induction false} SortIsPermutation(order: Order, entries: seq<Entry>)
    ensures multiset(SortBy(order, entries)) == multiset(entries)
  {
    if entries != [] {
      var init, last := entries[..|entries| - 1], entries[|entries| - 1];
      SortIsPermutation(order, init);
      InsertIsAdd(order, SortBy(order, init), last);
      SplitLast(entries);
    }
  }

  lemma {:induction false} InsertKeepsApart(order: Order, sorted: seq<Entry>, e: Entry)
    requires NoPathTwice(sorted) && forall x :: x in sorted ==> x.path != e.path
    ensures NoPathTwice(Insert(order, sorted, e))
  {
    if sorted != [] && !order(sorted[|sorted| - 1].path, e.path) {
      var init, last := sorted[..|sorted| - 1], sorted[|sorted| - 1];
      InsertKeepsApart(order, init, e);
      InsertIsAdd(order, init, e);
      var front := Insert(order, init, e);
      forall i | 0 <= i < |front| ensures front[i].path != last.path {
        assert front[i] in multiset(front);
        if front[i] != e { var k :| 0 <= k < |init| && init[k] == front[i]; }
      }
    }
  }

  lemma {:induction false} SortKeepsApart(order: Order, entries: seq<Entry>)
    requires NoPathTwice(entries)
    ensures NoPathTwice(SortBy(order, entries))
  {
    if entries != [] {
      var init, last := entries[..|entries| - 1], entries[|entries| - 1];
      SortKeepsApart(order, init);
      SortIsPermutation(order, init);
      forall x | x in SortBy(order, init) ensures x.path != last.path {
        assert x in multiset(init);
        var k :| 0 <= k < |init| && init[k] == x;
      }
      InsertKeepsApart(order, SortBy(order, init), last);
    }
  }

  /** An entry is received with its own path, as a deletion exactly when it is one, and of the size it states. */
  lemma EntryReceived(store: Store, e: Entry)
    requires EntryValid(e) && FileOf(store, e).Some?
    ensures var f := FileOf(store, e).value;
            && f.path == e.path && f.base == e.base && f.executable == e.executable
            && (e.deleted <==> f.data.None?)
            && (f.data.Some? ==> |f.data.value| == e.size <= 9_007_199_254_740_991)
            && (f.data.None? ==> !f.executable)
            && ContentOf(e) == (if f.data.None? then None else Some((OfBytes(f.data.value), |f.data.value|)))
  {}

  /** The same list, put together: as long, in the same order, each path once. */
  ghost predicate ListReceived(order: Order, files: seq<File>) {
    && |files| <= 100_000 && FilesInOrder(order, files) && Listed(files)
    && forall i :: 0 <= i < |files| && files[i].data.Some? ==> |files[i].data.value| <= 9_007_199_254_740_991
  }

  lemma ListIsReceived(order: Order, store: Store, entries: seq<Entry>)
    requires InOrder(order, entries) && NoPathTwice(entries) && |entries| <= 100_000
    requires (forall i :: 0 <= i < |entries| ==> EntryValid(entries[i])) && FilesOf(store, entries).Some?
    ensures var files := FilesOf(store, entries).value;
            && ListReceived(order, files) && |files| == |entries|
            && forall i :: 0 <= i < |entries| ==> FileOf(store, entries[i]) == Some(files[i])
  {
    var files := FilesOf(store, entries).value;
    if entries != [] { FilesMatch(store, entries, 0); }
    forall i | 0 <= i < |entries|
      ensures FileOf(store, entries[i]) == Some(files[i]) && files[i].path == entries[i].path
      ensures (files[i].data.None? ==> !files[i].executable)
           && (files[i].data.Some? ==> |files[i].data.value| <= 9_007_199_254_740_991)
    {
      FilesMatch(store, entries, i);
      EntryReceived(store, entries[i]);
    }
  }

  lemma DigestsOfReceived(store: Store, entries: seq<Entry>, files: seq<File>, chunkSize: nat)
    requires chunkSize >= 1 && |files| == |entries|
    requires forall i :: 0 <= i < |entries| ==> EntryValid(entries[i]) && FileOf(store, entries[i]) == Some(files[i])
    ensures FilesDigest(Entries(files, chunkSize)) == FilesDigest(entries)
    ensures LiveDigest(Entries(files, chunkSize)) == LiveDigest(entries)
  {
    forall i | 0 <= i < |entries|
      ensures Entries(files, chunkSize)[i].path == entries[i].path
           && Entries(files, chunkSize)[i].base == entries[i].base
           && Entries(files, chunkSize)[i].executable == entries[i].executable
           && ContentOf(Entries(files, chunkSize)[i]) == ContentOf(entries[i])
    {
      EntryReceived(store, entries[i]);
    }
    assert FilesDigest(Entries(files, chunkSize)).files == FilesDigest(entries).files;
    assert LiveDigest(Entries(files, chunkSize)).live == LiveDigest(entries).live;
  }

  lemma SortKeepsValid(order: Order, entries: seq<Entry>)
    requires ListValid(entries)
    ensures |SortBy(order, entries)| == |entries|
    ensures forall i :: 0 <= i < |entries| ==> EntryValid(SortBy(order, entries)[i])
  {
    SortIsPermutation(order, entries);
    var sorted := SortBy(order, entries);
    assert |sorted| == |multiset(sorted)| == |multiset(entries)| == |entries|;
    forall i | 0 <= i < |entries| ensures EntryValid(sorted[i]) {
      assert sorted[i] in multiset(entries);
      var k :| 0 <= k < |entries| && entries[k] == sorted[i];
    }
  }

  /** What is received of one list. */
  lemma ListOfReceived(order: Order, store: Store, entries: seq<Entry>, chunkSize: nat)
    requires Collation(order) && ListValid(entries) && chunkSize >= 1 && FilesOf(store, SortBy(order, entries)).Some?
    ensures var files := FilesOf(store, SortBy(order, entries)).value;
            && ListReceived(order, files)
            && FilesDigest(Entries(files, chunkSize)) == FilesDigest(SortBy(order, entries))
            && LiveDigest(Entries(files, chunkSize)) == LiveDigest(SortBy(order, entries))
  {
    var sorted := SortBy(order, entries);
    SortIsInOrder(order, entries);
    SortKeepsApart(order, entries);
    SortKeepsValid(order, entries);
    ListIsReceived(order, store, sorted);
    DigestsOfReceived(store, sorted, FilesOf(store, sorted).value, chunkSize);
  }

  lemma BundleOfReceived(store: Store, m: Manifest)
    requires BundleValid(m) && BundleOf(store, m).Some?
    ensures var bundle := BundleOf(store, m).value;
            && (bundle.Some? ==> bundle.value != [] && m.hasRefs && |bundle.value| <= 9_007_199_254_740_991)
            && m.bundleSha256 == (if bundle.Some? then Some(OfBytes(bundle.value)) else None)
  {}

  /**
   * Whatever the manifest and the store, what is received is a publication that its maker could have published under
   * this very id: within the limits, in the receiver's order, and with no path twice.
   */
  lemma ReceivedIsAPublication(order: Order, store: Store, m: Manifest)
    requires Collation(order) && Received(order, store, m).Some?
    ensures var q := Received(order, store, m).value;
            && 1 <= m.chunkSize && Published(q, m.chunkSize).snapshotId == m.snapshotId
            && (q.bundle.Some? ==> q.bundle.value != [] && q.hasRefs && |q.bundle.value| <= 9_007_199_254_740_991)
            && ListReceived(order, q.files) && ListReceived(order, q.live)
  {
    BundleOfReceived(store, Validated(order, m).value);
    ListOfReceived(order, store, m.files, m.chunkSize);
    ListOfReceived(order, store, m.live, m.chunkSize);
  }

  /** A pack index received, if any, is the one stated, of the size and digest stated. */
  lemma PackIndexReceived(order: Order, store: Store, m: Manifest)
    requires Received(order, store, m).Some?
    ensures var index := Received(order, store, m).value.packIndex;
            && (index.Some? <==> m.packIndex.Some?)
            && (index.Some? ==>
                  && index.value != [] && |index.value| == m.packIndex.value.size <= 9_007_199_254_740_991
                  && m.packIndex.value.sha256 == OfBytes(index.value))
  {}

  /** What is received of one entry: a deletion that carries nothing, or content of the size and digest stated. */
  ghost predicate CarriesEntry(files: seq<File>, e: Entry) {
    exists f :: f in files && f.path == e.path && f.executable == e.executable && f.base == e.base
                && if e.deleted then f.data.None? && e.size == 0 && e.sha256.None? && e.chunks == []
                   else f.data.Some? && |f.data.value| == e.size && e.sha256 == Some(OfBytes(f.data.value))
  }

  /** Every entry of the manifest is received. */
  lemma EveryEntryReceived(order: Order, store: Store, m: Manifest)
    requires Received(order, store, m).Some?
    ensures var q := Received(order, store, m).value;
            && (forall i :: 0 <= i < |m.files| ==> CarriesEntry(q.files, m.files[i]))
            && (forall i :: 0 <= i < |m.live| ==> CarriesEntry(q.live, m.live[i]))
  {
    var q := Received(order, store, m).value;
    forall i | 0 <= i < |m.files| ensures CarriesEntry(q.files, m.files[i]) {
      EntryIsCarried(order, store, m.files, i);
    }
    forall i | 0 <= i < |m.live| ensures CarriesEntry(q.live, m.live[i]) { EntryIsCarried(order, store, m.live, i); }
  }

  lemma EntryIsCarried(order: Order, store: Store, entries: seq<Entry>, i: nat)
    requires ListValid(entries) && FilesOf(store, SortBy(order, entries)).Some? && i < |entries|
    ensures CarriesEntry(FilesOf(store, SortBy(order, entries)).value, entries[i])
  {
    var sorted := SortBy(order, entries);
    SortIsPermutation(order, entries);
    assert entries[i] in multiset(sorted);
    var k :| 0 <= k < |sorted| && sorted[k] == entries[i];
    FilesMatch(store, sorted, k);
    var files := FilesOf(store, sorted).value;
    IsCarried(store, files, entries[i], files[k]);
  }

  lemma IsCarried(store: Store, files: seq<File>, e: Entry, f: File)
    requires EntryValid(e) && FileOf(store, e) == Some(f) && f in files
    ensures CarriesEntry(files, e)
  {
    EntryReceived(store, e);
  }

  // ---------------------------------------------------------------- chunks

  /** Chunk sizes that are positive, exact numbers, and add up. */
  predicate AddUp(chunks: seq<Chunk>, size: nat) {
    && size <= 9_007_199_254_740_991 && TotalSize(chunks) == size
    && forall i :: 0 <= i < |chunks| ==> 1 <= chunks[i].size <= 9_007_199_254_740_991
  }

  /** No manifest is received whose chunks do not add up, or that has a bundle without chunks, digest or refs. */
  lemma ChunksStatedAddUp(order: Order, store: Store, m: Manifest)
    requires Received(order, store, m).Some?
    ensures AddUp(m.chunks, m.bundleSize) && |m.chunks| <= 1_000_000
    ensures forall i :: 0 <= i < |m.files| ==> AddUp(m.files[i].chunks, m.files[i].size)
    ensures forall i :: 0 <= i < |m.live| ==> AddUp(m.live[i].chunks, m.live[i].size)
    ensures if m.chunks == [] then m.bundleSize == 0 && m.bundleSha256.None?
            else m.bundleSize > 0 && m.bundleSha256.Some? && m.hasRefs
  {
    BundleAddsUp(m);
    ListAddsUp(m.files);
    ListAddsUp(m.live);
  }

  lemma BundleAddsUp(m: Manifest)
    requires BundleValid(m)
    ensures AddUp(m.chunks, m.bundleSize)
    ensures if m.chunks == [] then m.bundleSize == 0 && m.bundleSha256.None?
            else m.bundleSize > 0 && m.bundleSha256.Some? && m.hasRefs
  {}

  lemma ListAddsUp(entries: seq<Entry>)
    requires ListValid(entries)
    ensures forall i :: 0 <= i < |entries| ==> AddUp(entries[i].chunks, entries[i].size)
  {}

  /** The data is these pieces, one after the other, each of the size and digest its chunk states. */
  ghost predicate MadeOfChunks(data: Bytes, chunks: seq<Chunk>, pieces: seq<Bytes>) {
    && |pieces| == |chunks| && Joined(pieces) == data
    && forall i :: 0 <= i < |chunks| ==> |pieces[i]| == chunks[i].size && OfBytes(pieces[i]) == chunks[i].sha256
  }

  function Joined(pieces: seq<Bytes>): Bytes {
    if pieces == [] then [] else Joined(pieces[..|pieces| - 1]) + pieces[|pieces| - 1]
  }

  /** Not the whole alone, every chunk retrieved is the one stated. */
  lemma {:induction false} EachChunkIsGenuine(store: Store, chunks: seq<Chunk>) returns (pieces: seq<Bytes>)
    requires RetrieveAll(store, chunks).Some?
    ensures MadeOfChunks(RetrieveAll(store, chunks).value, chunks, pieces)
  {
    pieces := [];
    if chunks != [] {
      var init, last := chunks[..|chunks| - 1], chunks[|chunks| - 1];
      var front := EachChunkIsGenuine(store, init);
      pieces := front + [RetrieveChunk(store, last).value];
      assert pieces[..|pieces| - 1] == front;
    }
  }

  // ---------------------------------------------------------------- the limits

  /** How many pieces of a size there are in so many bytes, the last one as long as is left. */
  function Pieces(n: nat, size: nat): nat
    requires size >= 1
  {
    if n == 0 then 0 else if n <= size then 1 else Pieces(n - size, size) + 1
  }

  function ChunksNeeded(data: Option<Bytes>, chunkSize: nat): nat
    requires chunkSize >= 1
  {
    if data.None? then 0 else Pieces(|data.value|, chunkSize)
  }

  function AllChunksNeeded(files: seq<File>, chunkSize: nat): nat
    requires chunkSize >= 1
  {
    if files == [] then 0
    else AllChunksNeeded(files[..|files| - 1], chunkSize) + ChunksNeeded(files[|files| - 1].data, chunkSize)
  }

  lemma {:induction false} ChunksAreNeeded(data: Bytes, chunkSize: nat)
    requires chunkSize >= 1
    ensures |ChunksOf(data, chunkSize)| == Pieces(|data|, chunkSize)
    decreases |data|
  {
    if data != [] {
      var n := if chunkSize <= |data| then chunkSize else |data|;
      ChunksAreNeeded(data[n..], chunkSize);
    }
  }

  lemma {:induction false} AllChunksAreNeeded(files: seq<File>, chunkSize: nat)
    requires chunkSize >= 1
    ensures TotalChunks(Entries(files, chunkSize)) == AllChunksNeeded(files, chunkSize)
  {
    if files != [] {
      var init, last := files[..|files| - 1], files[|files| - 1];
      AllChunksAreNeeded(init, chunkSize);
      assert Entries(files, chunkSize)[..|files| - 1] == Entries(init, chunkSize);
      if last.data.Some? { ChunksAreNeeded(last.data.value, chunkSize); }
    }
  }

  predicate Short(data: Option<Bytes>) {
    data.Some? ==> |data.value| <= 9_007_199_254_740_991
  }

  /** At most 100000 files in a million chunks, each of a size a number holds exactly. */
  predicate ListWithinLimits(files: seq<File>, chunkSize: nat)
    requires chunkSize >= 1
  {
    && |files| <= 100_000 && AllChunksNeeded(files, chunkSize) <= 1_000_000
    && forall i :: 0 <= i < |files| ==> Short(files[i].data)
  }

  /** What a receiver's limits come to. */
  lemma FitsExactlyWhen(p: Publication, chunkSize: nat)
    requires chunkSize >= 1
    ensures Fits(p, chunkSize) <==>
              && chunkSize <= 9_007_199_254_740_991 && Short(p.bundle) && Short(p.packIndex)
              && ChunksNeeded(p.bundle, chunkSize) <= 1_000_000
              && ListWithinLimits(p.files, chunkSize) && ListWithinLimits(p.live, chunkSize)
  {
    ChunksAreNeeded(if p.bundle.Some? then p.bundle.value else [], chunkSize);
    AllChunksAreNeeded(p.files, chunkSize);
    AllChunksAreNeeded(p.live, chunkSize);
  }

  /** A manifest whose private files, or whose overlay, name a path twice is never received. */
  lemma RepeatedPathIsRefused(order: Order, store: Store, m: Manifest, i: nat, j: nat)
    requires || (i < j < |m.files| && m.files[i].path == m.files[j].path)
             || (i < j < |m.live| && m.live[i].path == m.live[j].path)
    ensures Received(order, store, m).None?
  {}

  // ---------------------------------------------------------------- what an import is given

  /** The import is given the files received: their paths and contents, in their order. */
  ghost predicate Gives(q: Publication, m: Sync.Snapshot) {
    && |m.files| == |q.files| && |m.live| == |q.live|
    && (forall i :: 0 <= i < |q.files| ==>
          m.files[i] == Workspace.PrivateFile(q.files[i].path, q.files[i].data))
    && (forall i :: 0 <= i < |q.live| ==>
          m.live[i].path == q.live[i].path && m.live[i].next == q.live[i].data)
  }

  /** Git names each branch of a bundle once; that each path is named once is what the manifest was checked for. */
  lemma ImportIsWellFormed(order: Order, store: Store, manifest: Manifest, m: Sync.Snapshot)
    requires Collation(order) && Received(order, store, manifest).Some?
    requires Gives(Received(order, store, manifest).value, m) && Distinct(Git.Names(m.heads))
    ensures LocalEdits.WellFormed(m)
  {
    ReceivedIsAPublication(order, store, manifest);
    var q := Received(order, store, manifest).value;
    forall i, j | 0 <= i < j < |m.live| ensures m.live[i].path != m.live[j].path {
      assert q.live[i].path != q.live[j].path;
    }
    forall i, j | 0 <= i < j < |m.files| ensures m.files[i].path != m.files[j].path {
      assert q.files[i].path != q.files[j].path;
    }
  }
}
