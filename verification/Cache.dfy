/**
 * src/cache.js: the content-addressed chunk store of one repository and its garbage collector, a
 * mark-and-sweep over snapshot manifests.
 */
module Cache {
  import opened Basics

  /** A snapshot id or its 64 hex digits read as a number; localeCompare orders such ids the same way. */
  type Id = nat

  datatype Manifest = Manifest(
    id: Id,
    createdAt: int,
    chunkSize: nat,
    packIndex: bool,
    chunks: seq<Digest>,
    files: seq<seq<Digest>>,
    liveFiles: seq<seq<Digest>>,
    trashFiles: seq<seq<Digest>>)

  /** Manifests on disk by id; None is a file that does not parse. */
  datatype Disk = Disk(chunks: set<Digest>, manifests: map<Id, Option<Manifest>>)

  function Flat(lists: seq<seq<Digest>>): set<Digest> {
    set i, j | 0 <= i < |lists| && 0 <= j < |lists[i]| :: lists[i][j]
  }

  /** The chunks a manifest keeps alive: its bundle, private and live files. Tombstoned files are not marked. */
  function Marked(m: Manifest): set<Digest> {
    (set c | c in m.chunks) + Flat(m.files) + Flat(m.liveFiles)
  }

  function Readable(manifests: map<Id, Option<Manifest>>): set<Id> {
    set id | id in manifests && manifests[id].Some?
  }

  function Referenced(manifests: map<Id, Option<Manifest>>): set<Digest> {
    set id, c | id in Readable(manifests) && c in Marked(manifests[id].value) :: c
  }

  // ---------------------------------------------------------------- what a prune is for

  predicate Newer(manifests: map<Id, Option<Manifest>>, a: Id, b: Id)
    requires a in Readable(manifests) && b in Readable(manifests)
  {
    var at, bt := manifests[a].value.createdAt, manifests[b].value.createdAt;
    at > bt || (at == bt && a > b)
  }

  function NewerThan(manifests: map<Id, Option<Manifest>>, id: Id): set<Id>
    requires id in Readable(manifests)
  {
    set other | other in Readable(manifests) && Newer(manifests, other, id)
  }

  /** Kept on purpose: named by the caller, among the `retain` newest, or younger than the retention window. */
  predicate Protected(manifests: map<Id, Option<Manifest>>, keep: set<Id>, retain: nat, recentMs: int, now: int,
                      id: Id) {
    || id in keep
    || (id in Readable(manifests)
        && (|NewerThan(manifests, id)| < retain || now - manifests[id].value.createdAt < recentMs))
  }

  predicate Unsafe(manifests: map<Id, Option<Manifest>>, keep: set<Id>) {
    exists id :: id in keep && id in manifests && manifests[id].None?
  }

  function Pruned(d: Disk, keep: set<Id>, retain: nat, recentMs: int, now: int): Disk {
    if Unsafe(d.manifests, keep) then d
    else
      var kept :=
        map id | id in d.manifests && Protected(d.manifests, keep, retain, recentMs, now, id) :: d.manifests[id];
      Disk(d.chunks * Referenced(kept), kept)
  }

  // ---------------------------------------------------------------- the newest snapshots, sorted

  ghost predicate NewestFirst(manifests: map<Id, Option<Manifest>>, sorted: seq<Id>) {
    && (forall i :: 0 <= i < |sorted| ==> sorted[i] in Readable(manifests))
    && (forall i, j :: 0 <= i < j < |sorted| ==> Newer(manifests, sorted[i], sorted[j]))
  }

  function InsertNewest(manifests: map<Id, Option<Manifest>>, sorted: seq<Id>, id: Id): (r: seq<Id>)
    requires id in Readable(manifests) && id !in sorted && NewestFirst(manifests, sorted)
    ensures NewestFirst(manifests, r)
    ensures forall x :: x in r <==> x in sorted || x == id
  {
    if sorted == [] then [id]
    else if Newer(manifests, id, sorted[0]) then [id] + sorted
    else
      assert sorted == [sorted[0]] + sorted[1..];
      var rest := InsertNewest(manifests, sorted[1..], id);
      assert forall j :: 0 <= j < |rest| ==> Newer(manifests, sorted[0], rest[j]) by {
        forall j | 0 <= j < |rest| ensures Newer(manifests, sorted[0], rest[j]) {
          assert rest[j] in sorted[1..] || rest[j] == id;
          if rest[j] in sorted[1..] { var k :| 1 <= k < |sorted| && sorted[k] == rest[j]; }
        }
      }
      [sorted[0]] + rest
  }

  function Elements(s: seq<Id>): set<Id> {
    set x | x in s
  }

  lemma {:induction false} DistinctSize(s: seq<Id>)
    requires Distinct(s)
    ensures |Elements(s)| == |s|
  {
    if s != [] {
      LastOfDistinct(s);
      DistinctSize(s[..|s| - 1]);
      assert Elements(s) == Elements(s[..|s| - 1]) + {s[|s| - 1]};
    }
  }

  /** A position in the sorted list is the number of newer snapshots. */
  lemma RankIsPosition(manifests: map<Id, Option<Manifest>>, sorted: seq<Id>, i: nat)
    requires NewestFirst(manifests, sorted) && i < |sorted|
    requires forall id :: id in Readable(manifests) ==> id in sorted
    ensures |NewerThan(manifests, sorted[i])| == i
  {
    var before := sorted[..i];
    DistinctSize(before);
    forall id ensures id in NewerThan(manifests, sorted[i]) <==> id in before {
      if id in NewerThan(manifests, sorted[i]) {
        var j :| 0 <= j < |sorted| && sorted[j] == id;
      }
    }
    assert NewerThan(manifests, sorted[i]) == Elements(before);
  }

  // ---------------------------------------------------------------- the store

  class RepositoryCache {
    var chunks: set<Digest>
    var manifests: map<Id, Option<Manifest>>

    function State(): Disk
      reads this
    {
      Disk(chunks, manifests)
    }

    constructor ()
      ensures State() == Disk({}, map[])
    {
      chunks, manifests := {}, map[];
    }

    method WriteChunk(c: Digest)
      modifies this`chunks
      ensures chunks == old(chunks) + {c}
    {
      if c !in chunks { chunks := chunks + {c}; }
    }

    /** A manifest is written once; only a missing pack index is ever filled in later. */
    method WriteManifest(m: Manifest) returns (ok: bool)
      modifies this`manifests
      ensures Written(old(State()), m) == if ok then Some(State()) else None
      ensures !ok ==> State() == old(State())
    {
      if m.id !in manifests {
        manifests := manifests[m.id := Some(m)];
        return true;
      }
      if manifests[m.id].None? { return false; }
      if m.packIndex && !manifests[m.id].value.packIndex {
        manifests := manifests[m.id := Some(m)];
      }
      return true;
    }

    method Sort(readable: seq<Id>) returns (sorted: seq<Id>)
      requires Distinct(readable) && forall id :: id in readable <==> id in Readable(manifests)
      ensures NewestFirst(manifests, sorted) && forall id :: id in sorted <==> id in readable
    {
      sorted := [];
      var i := 0;
      while i < |readable|
        invariant 0 <= i <= |readable|
        invariant NewestFirst(manifests, sorted)
        invariant forall id :: id in sorted <==> id in readable[..i]
      {
        assert readable[..i + 1] == readable[..i] + [readable[i]];
        assert readable[i] !in readable[..i];
        sorted := InsertNewest(manifests, sorted, readable[i]);
        i := i + 1;
      }
    }

    /** The ids a prune must not drop, marked into a growing set. */
    method Protect(listing: seq<Id>, keep: set<Id>, retain: nat, recentMs: int, now: int)
      returns (protectedIds: set<Id>)
      requires Distinct(listing) && forall id :: id in listing <==> id in manifests
      ensures forall id :: id in manifests ==>
                (id in protectedIds <==> Protected(manifests, keep, retain, recentMs, now, id))
    {
      var readable := [];
      var i := 0;
      while i < |listing|
        invariant 0 <= i <= |listing|
        invariant Distinct(readable)
        invariant forall id :: id in readable <==> id in listing[..i] && id in Readable(manifests)
      {
        assert listing[..i + 1] == listing[..i] + [listing[i]];
        assert listing[i] !in listing[..i];
        if manifests[listing[i]].Some? { readable := readable + [listing[i]]; }
        i := i + 1;
      }
      assert listing[..|listing|] == listing;
      var sorted := Sort(readable);
      protectedIds := keep;
      i := 0;
      while i < |sorted|
        invariant 0 <= i <= |sorted|
        invariant forall id :: id in protectedIds <==>
          || id in keep
          || exists j :: 0 <= j < i && sorted[j] == id
                         && (j < retain || now - manifests[id].value.createdAt < recentMs)
      {
        if i < retain || now - manifests[sorted[i]].value.createdAt < recentMs {
          protectedIds := protectedIds + {sorted[i]};
        }
        i := i + 1;
      }
      forall j | 0 <= j < |sorted| ensures |NewerThan(manifests, sorted[j])| == j {
        RankIsPosition(manifests, sorted, j);
      }
    }

    method Mark(listing: seq<Id>, protectedIds: set<Id>) returns (referenced: set<Digest>)
      requires forall id :: id in listing <==> id in manifests
      ensures forall c :: c in referenced <==>
        exists id :: id in protectedIds && id in Readable(manifests) && c in Marked(manifests[id].value)
    {
      referenced := {};
      var i := 0;
      while i < |listing|
        invariant 0 <= i <= |listing|
        invariant forall c :: c in referenced <==>
          exists id :: id in listing[..i] && id in protectedIds && id in Readable(manifests)
                       && c in Marked(manifests[id].value)
      {
        assert listing[..i + 1] == listing[..i] + [listing[i]];
        if listing[i] in protectedIds && manifests[listing[i]].Some? {
          referenced := referenced + Marked(manifests[listing[i]].value);
        }
        i := i + 1;
      }
      assert listing[..|listing|] == listing;
    }

    /** `listing` is the directory in whatever order it is read. */
    method Prune(listing: seq<Id>, keep: set<Id>, retain: nat, recentMs: int, now: int)
      returns (skipped: bool, removedManifests: int, removedChunks: int)
      requires Distinct(listing) && forall id :: id in listing <==> id in manifests
      modifies this
      ensures skipped == Unsafe(old(manifests), keep)
      ensures State() == Pruned(old(State()), keep, retain, recentMs, now)
      ensures removedManifests == |old(manifests)| - |manifests| && removedChunks == |old(chunks)| - |chunks|
    {
      if exists id :: id in keep && id in manifests && manifests[id].None? { return true, 0, 0; }
      var protectedIds := Protect(listing, keep, retain, recentMs, now);
      var referenced := Mark(listing, protectedIds);
      var before := manifests;
      var kept := map id | id in manifests && id in protectedIds :: manifests[id];
      var chunksKept := set c | c in chunks && c in referenced;
      removedManifests, removedChunks := |manifests| - |kept|, |chunks| - |chunksKept|;
      assert kept == Pruned(State(), keep, retain, recentMs, now).manifests;
      assert forall id :: id in Readable(kept) <==> id in protectedIds && id in Readable(before);
      assert chunksKept == chunks * Referenced(kept);
      manifests, chunks := kept, chunksKept;
      skipped := false;
    }
  }

  /** The disk after writing a manifest; None when the file already there cannot be read. */
  function Written(d: Disk, m: Manifest): Option<Disk> {
    if m.id !in d.manifests then Some(d.(manifests := d.manifests[m.id := Some(m)]))
    else match d.manifests[m.id]
      case None => None
      case Some(held) =>
        if m.packIndex && !held.packIndex then Some(d.(manifests := d.manifests[m.id := Some(m)])) else Some(d)
  }
}
