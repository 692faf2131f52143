/**
 * A follower that skips the heads it has imported already (src/protocol.js:563): its tree is the source's after every
 * head it is told of, repeated ones included.
 */
module Following {
  import opened Basics
  import opened Git
  import opened History
  import opened Sync
  import opened Replication
  import opened Retry

  /** A follower's branch is never refused, so what it imports is recorded. */
  lemma FollowerRecords(l: Local, device: Device, b: Name, p: Publication)
    requires Passive(l, device, b) && Faithful(p) && Behind(l, p, b)
    ensures Get(Imported(l, device, p.snapshot, {}).imported, device) == Some(p.snapshot.id)
  {
    var m, r := p.snapshot, AfterPrepare(l, device, p.snapshot, {}).repo;
    RefusedExactlyWhen(l, device, m, {});
    PrepareStep(l, device, b, m, "");
    StatedByListing(m.heads, p.repo.branches, b);
    if RestoresAll(l, device, m) { PreparedIsClean(l, device, b, m); } else { UnchangedRefsAgree(l, device, b, p); }
    assert !RefusedAsDirty(l, device, m, {});
  }

  /** An id stands for one snapshot. */
  ghost predicate HonestIds(run: seq<Publication>) {
    forall i, j :: 0 <= i < |run| && 0 <= j < |run| && run[i].snapshot.id == run[j].snapshot.id ==>
      run[i].snapshot == run[j].snapshot
  }

  /** The publications of a run, told from the i-th on. */
  function Told(l: Local, device: Device, run: seq<Publication>, i: nat): Local
    requires i <= |run|
    decreases |run| - i
  {
    if i == |run| then l else Told(Accepted(l, device, run[i].snapshot, {}), device, run, i + 1)
  }

  predicate NotPast(l: Local, p: Publication, b: Name) {
    b in l.repo.branches ==> b in p.repo.branches && IsAncestor(l.repo.branches[b], p.repo.branches[b])
  }

  /** A follower that may hear of the i-th publication of the run. */
  ghost predicate Ready(l: Local, device: Device, b: Name, run: seq<Publication>, i: nat)
    requires i < |run|
  {
    Passive(l, device, b) && LiveStaysLive(run, l.repo.ignored) && NotPast(l, run[i], b)
  }

  lemma ReadyFor(l: Local, device: Device, b: Name, run: seq<Publication>, i: nat)
    requires i < |run| && LinearRun(run, b) && Ready(l, device, b, run, i)
    ensures Faithful(run[i]) && Behind(l, run[i], b)
  {
    assert OnBranchWithCommits(run[i].repo, b);
  }

  /** It may hear of the next instead. */
  lemma ReadyWithout(l: Local, device: Device, b: Name, run: seq<Publication>, i: nat)
    requires i + 1 < |run| && LinearRun(run, b) && Ready(l, device, b, run, i)
    ensures Ready(l, device, b, run, i + 1)
  {
    if b in l.repo.branches {
      AncestorTransitive(l.repo.branches[b], run[i].repo.branches[b], run[i + 1].repo.branches[b]);
    }
  }

  lemma ReadyAfter(l: Local, device: Device, b: Name, run: seq<Publication>, i: nat, l': Local)
    requires i + 1 < |run| && LinearRun(run, b) && Ready(l, device, b, run, i)
    requires l' == Imported(l, device, run[i].snapshot, {})
    ensures Ready(l', device, b, run, i + 1) && Get(l'.imported, device) == Some(run[i].snapshot.id)
  {
    ReadyFor(l, device, b, run, i);
    ImportFollows(l, device, b, run[i]);
    FollowerRecords(l, device, b, run[i]);
  }

  /** The next head is the one imported last and skipped, or another. */
  lemma HeardNext(l': Local, device: Device, run: seq<Publication>, i: nat)
    requires i + 1 < |run| && Get(l'.imported, device) == Some(run[i].snapshot.id)
    ensures Told(l', device, run, i + 1) ==
              if run[i + 1].snapshot.id == run[i].snapshot.id then Told(l', device, run, i + 2)
              else Told(Imported(l', device, run[i + 1].snapshot, {}), device, run, i + 2)
  {}

  ghost predicate Arrived(l: Local, device: Device, b: Name, p: Publication) {
    Passive(l, device, b) && Replicates(l, p)
  }

  /** From a device whose last import was of the i-th publication. */
  lemma {:induction false} FollowingOn(l: Local, device: Device, b: Name, run: seq<Publication>, i: nat, l': Local)
    requires i < |run| && LinearRun(run, b) && HonestIds(run) && Ready(l, device, b, run, i)
    requires l' == Imported(l, device, run[i].snapshot, {})
    ensures Arrived(Told(l', device, run, i + 1), device, b, run[|run| - 1])
    decreases |run| - i
  {
    if i + 1 == |run| {
      ReadyFor(l, device, b, run, i);
      ImportFollows(l, device, b, run[i]);
    } else {
      ReadyAfter(l, device, b, run, i, l');
      HeardNext(l', device, run, i);
      if run[i + 1].snapshot.id == run[i].snapshot.id {
        ReadyWithout(l, device, b, run, i);
        FollowingOn(l, device, b, run, i + 1, l');
      } else {
        FollowingOn(l', device, b, run, i + 1, Imported(l', device, run[i + 1].snapshot, {}));
      }
    }
  }

  lemma HeardFirst(l: Local, device: Device, b: Name, run: seq<Publication>, l': Local, end: Local)
    requires run != [] && LinearRun(run, b) && HonestIds(run) && Ready(l, device, b, run, 0)
    requires l' == Imported(l, device, run[0].snapshot, {}) && end == Told(l', device, run, 1)
    ensures Arrived(end, device, b, run[|run| - 1])
  {
    FollowingOn(l, device, b, run, 0, l');
  }

  /**
   * Replication with the heads as they are heard: whatever edits and forward history the source makes, whichever of its
   * heads are missed and however often one is repeated, a follower ends with the tree of the last one heard.
   */
  lemma HeardHeadsReplicate(l: Local, device: Device, b: Name, run: seq<Publication>, end: Local)
    requires run != [] && Passive(l, device, b) && LinearRun(run, b) && LiveStaysLive(run, l.repo.ignored)
    requires HonestIds(run) && NotPast(l, run[0], b) && !Skipped(l, device, run[0].snapshot)
    requires end == Told(l, device, run, 0)
    ensures Arrived(end, device, b, run[|run| - 1])
  {
    HeardFirst(l, device, b, run, Imported(l, device, run[0].snapshot, {}), end);
  }
}
