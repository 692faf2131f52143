/** What runs of imports do to a repository's history (src/git.js:189-262). */
module History {
  import opened Basics
  import opened Git

  // ---------------------------------------------------------------- one import, seen branch by branch

  ghost predicate Grows(before: map<Name, Commit>, after: map<Name, Commit>) {
    forall n :: n in before ==> n in after && IsAncestor(before[n], after[n])
  }

  lemma GrowsTransitive(a: map<Name, Commit>, b: map<Name, Commit>, c: map<Name, Commit>)
    requires Grows(a, b) && Grows(b, c)
    ensures Grows(a, c)
  {
    forall n | n in a ensures IsAncestor(a[n], c[n]) {
      AncestorTransitive(a[n], b[n], c[n]);
    }
  }

  /** The fold leaves everything but the branches (and the checked-out tree) alone. */
  lemma {:induction false} BranchesFrame(s: Import, clean: bool, refs: seq<Ref>)
    ensures var r := ImportBranches(s, clean, refs).repo;
            && r.head == s.repo.head && r.bare == s.repo.bare && r.tags == s.repo.tags
            && r.ignored == s.repo.ignored && r.remoteHeads == s.repo.remoteHeads
  {
    if refs != [] { BranchesFrame(s, clean, refs[..|refs| - 1]); }
  }

  lemma {:induction false} TagsFrame(s: Import, refs: seq<Ref>)
    ensures var t := ImportTags(s, refs);
            && t.repo == s.repo.(tags := t.repo.tags)
            && t.conflicts == s.conflicts
            && (forall n :: n in s.repo.tags ==> n in t.repo.tags && t.repo.tags[n] == s.repo.tags[n])
  {
    if refs != [] { TagsFrame(s, refs[..|refs| - 1]); }
  }

  lemma {:induction false} BranchesGrow(s: Import, clean: bool, refs: seq<Ref>)
    ensures Grows(s.repo.branches, ImportBranches(s, clean, refs).repo.branches)
  {
    if refs != [] {
      var t := ImportBranches(s, clean, refs[..|refs| - 1]);
      BranchesGrow(s, clean, refs[..|refs| - 1]);
      GrowsTransitive(s.repo.branches, t.repo.branches, ImportBranch(t, clean, refs[|refs| - 1]).repo.branches);
    }
  }

  /** A branch moves only to a descendant, and a tag never moves. */
  lemma ImportGrows(r: Repo, device: Device, heads: seq<Ref>, tags: seq<Ref>)
    ensures var r' := BundleImported(r, device, heads, tags).repo;
            && Grows(r.branches, r'.branches)
            && (forall n :: n in r.tags ==> n in r'.tags && r'.tags[n] == r.tags[n])
  {
    if heads != [] || tags != [] {
      var clean := r.bare || IsClean(r);
      var fetched := r.(remoteHeads := Fetch(r.remoteHeads, device, heads));
      var s := Import(fetched, [], []);
      BranchesGrow(s, clean, heads);
      BranchesFrame(s, clean, heads);
      TagsFrame(ImportBranches(s, clean, heads), tags);
    }
  }

  lemma {:induction false} FetchedHeads(remotes: map<(Device, Name), Commit>, device: Device, refs: seq<Ref>, i: nat)
    requires Distinct(Names(refs)) && i < |refs|
    ensures (device, refs[i].name) in Fetch(remotes, device, refs)
    ensures Fetch(remotes, device, refs)[(device, refs[i].name)] == refs[i].oid
  {
    var n := |refs| - 1;
    if i < n {
      assert Names(refs[..n]) == Names(refs)[..n];
      FetchedHeads(remotes, device, refs[..n], i);
      assert Names(refs)[i] != Names(refs)[n];
    }
  }

  /**
   * Whether its branch moved, was refused or diverged, every commit a bundle states is kept under the device that
   * stated it.
   */
  lemma StatedCommitsAreKept(r: Repo, device: Device, heads: seq<Ref>, tags: seq<Ref>, i: nat)
    requires Distinct(Names(heads)) && i < |heads|
    ensures Get(BundleImported(r, device, heads, tags).repo.remoteHeads, (device, heads[i].name)) == Some(heads[i].oid)
  {
    var clean := r.bare || IsClean(r);
    var s := Import(r.(remoteHeads := Fetch(r.remoteHeads, device, heads)), [], []);
    FetchedHeads(r.remoteHeads, device, heads, i);
    BranchesFrame(s, clean, heads);
    TagsFrame(ImportBranches(s, clean, heads), tags);
  }

  // ---------------------------------------------------------------- runs

  datatype Bundle = Bundle(device: Device, heads: seq<Ref>, tags: seq<Ref>)

  function ImportAll(r: Repo, run: seq<Bundle>): Repo
    decreases |run|
  {
    if run == [] then r
    else var b := run[0]; ImportAll(BundleImported(r, b.device, b.heads, b.tags).repo, run[1..])
  }

  predicate Reachable(r: Repo, c: Commit) {
    exists n :: n in r.branches && IsAncestor(c, r.branches[n])
  }

  /** Over any run of imports from any devices, history only grows and tags stay put. */
  lemma {:induction false} HistoryOnlyGrows(r: Repo, run: seq<Bundle>)
    ensures var r' := ImportAll(r, run);
            && Grows(r.branches, r'.branches)
            && (forall n :: n in r.tags ==> n in r'.tags && r'.tags[n] == r.tags[n])
            && (forall c :: Reachable(r, c) ==> Reachable(r', c))
    decreases |run|
  {
    var r' := ImportAll(r, run);
    if run == [] {
      forall n | n in r.branches ensures IsAncestor(r.branches[n], r.branches[n]) {}
    } else {
      var b := run[0];
      var next := BundleImported(r, b.device, b.heads, b.tags).repo;
      ImportGrows(r, b.device, b.heads, b.tags);
      HistoryOnlyGrows(next, run[1..]);
      GrowsTransitive(r.branches, next.branches, r'.branches);
    }
    forall c | Reachable(r, c) ensures Reachable(r', c) {
      var n :| n in r.branches && IsAncestor(c, r.branches[n]);
      AncestorTransitive(c, r.branches[n], r'.branches[n]);
    }
  }

  // ---------------------------------------------------------------- what each branch ends at

  predicate Comparable(a: Commit, b: Commit) {
    IsAncestor(a, b) || IsAncestor(b, a)
  }

  /** The later of two comparable commits: the join the import computes. */
  function Later(a: Commit, b: Commit): Commit {
    if IsAncestor(b, a) then a else b
  }

  /** Where a branch stands after an import stated `oid` for it; `blocked` when it is checked out and dirty. */
  function Merged(local: Option<Commit>, oid: Commit, blocked: bool): Option<Commit> {
    match local
    case None => if blocked then None else Some(oid)
    case Some(l) => if Comparable(l, oid) && !blocked then Some(Later(l, oid)) else Some(l)
  }

  /** The commit a bundle states for a branch. */
  function Stated(refs: seq<Ref>, n: Name): Option<Commit> {
    if refs == [] then None
    else if refs[|refs| - 1].name == n then Some(refs[|refs| - 1].oid)
    else Stated(refs[..|refs| - 1], n)
  }

  lemma {:induction false} StatedIffNamed(refs: seq<Ref>, n: Name)
    ensures Stated(refs, n).Some? <==> n in Names(refs)
  {
    if refs != [] {
      StatedIffNamed(refs[..|refs| - 1], n);
      assert Names(refs) == Names(refs[..|refs| - 1]) + [refs[|refs| - 1].name];
    }
  }

  function Outcome(local: Option<Commit>, stated: Option<Commit>, blocked: bool): Option<Commit> {
    match stated
    case None => local
    case Some(oid) => Merged(local, oid, blocked)
  }

  /** One stated branch: its own outcome, and no other branch's. */
  lemma OneBranchAfterImport(s: Import, clean: bool, ref: Ref)
    ensures var t := ImportBranch(s, clean, ref);
            var local := Get(s.repo.branches, ref.name);
            && Get(t.repo.branches, ref.name) ==
                 Merged(local, ref.oid, CurrentBranch(s.repo) == Some(ref.name) && !clean)
            && (Conflict(ref.name, Diverged) in t.conflicts <==>
                 Conflict(ref.name, Diverged) in s.conflicts || (local.Some? && !Comparable(local.value, ref.oid)))
  {
    var local := Get(s.repo.branches, ref.name);
    if local.Some? && IsAncestor(local.value, ref.oid) && IsAncestor(ref.oid, local.value) {
      AncestorAntisymmetric(local.value, ref.oid);
    }
  }

  lemma OtherBranchStays(s: Import, clean: bool, ref: Ref, n: Name)
    requires ref.name != n
    ensures var t := ImportBranch(s, clean, ref);
            && Get(t.repo.branches, n) == Get(s.repo.branches, n)
            && (Conflict(n, Diverged) in t.conflicts <==> Conflict(n, Diverged) in s.conflicts)
  {}

  /** Each branch ends at the later of the two commits; a report says `Diverged` exactly when neither is later. */
  lemma {:induction false} BranchAfterImport(s: Import, clean: bool, refs: seq<Ref>, n: Name)
    requires Distinct(Names(refs))
    ensures var t := ImportBranches(s, clean, refs);
            var local, oid := Get(s.repo.branches, n), Stated(refs, n);
            && Get(t.repo.branches, n) == Outcome(local, oid, CurrentBranch(s.repo) == Some(n) && !clean)
            && (Conflict(n, Diverged) in t.conflicts <==>
                 Conflict(n, Diverged) in s.conflicts
                 || (local.Some? && oid.Some? && !Comparable(local.value, oid.value)))
  {
    if refs != [] {
      var init, last := refs[..|refs| - 1], refs[|refs| - 1];
      assert Names(refs) == Names(init) + [last.name];
      LastOfDistinct(Names(refs));
      assert Names(refs)[..|refs| - 1] == Names(init);
      BranchAfterImport(s, clean, init, n);
      BranchesFrame(s, clean, init);
      StatedIffNamed(init, n);
      if last.name == n {
        OneBranchAfterImport(ImportBranches(s, clean, init), clean, last);
      } else {
        OtherBranchStays(ImportBranches(s, clean, init), clean, last, n);
      }
    }
  }

  predicate Lists(refs: seq<Ref>, branches: map<Name, Commit>) {
    && Distinct(Names(refs))
    && (forall i :: 0 <= i < |refs| ==> refs[i].name in branches && branches[refs[i].name] == refs[i].oid)
    && (forall n :: n in branches ==> n in Names(refs))
  }

  lemma {:induction false} StatedByListing(refs: seq<Ref>, branches: map<Name, Commit>, n: Name)
    requires Lists(refs, branches)
    ensures Stated(refs, n) == Get(branches, n)
  {
    StatedIffNamed(refs, n);
    if n in branches { StatedValue(refs, branches, n); }
  }

  lemma {:induction false} StatedValue(refs: seq<Ref>, branches: map<Name, Commit>, n: Name)
    requires forall i :: 0 <= i < |refs| ==> refs[i].name in branches && branches[refs[i].name] == refs[i].oid
    requires n in Names(refs)
    ensures n in branches && Stated(refs, n) == Some(branches[n])
  {
    if refs[|refs| - 1].name != n {
      assert Names(refs) == Names(refs[..|refs| - 1]) + [refs[|refs| - 1].name];
      StatedValue(refs[..|refs| - 1], branches, n);
    }
  }

  /** After importing a full listing of `theirs`, every branch is at the join of the two maps. */
  lemma ImportJoins(r: Repo, theirs: map<Name, Commit>, device: Device, heads: seq<Ref>, tags: seq<Ref>, n: Name)
    requires Lists(heads, theirs)
    ensures var t := BundleImported(r, device, heads, tags);
            var local, oid := Get(r.branches, n), Get(theirs, n);
            && Get(t.repo.branches, n) == Outcome(local, oid, CurrentBranch(r) == Some(n) && !r.bare && !IsClean(r))
            && (Conflict(n, Diverged) in t.conflicts <==>
                 local.Some? && oid.Some? && !Comparable(local.value, oid.value))
  {
    StatedByListing(heads, theirs, n);
    if heads != [] || tags != [] {
      var clean := r.bare || IsClean(r);
      var s := Import(r.(remoteHeads := Fetch(r.remoteHeads, device, heads)), [], []);
      BranchAfterImport(s, clean, heads, n);
      TagsFrame(ImportBranches(s, clean, heads), tags);
    }
  }

  /**
   * Two clean repositories whose common branches are comparable have the same branches after each
   * imports what the other had, and also when the second imports what the first then has.
   */
  lemma CleanRepositoriesAgree(a: Repo, b: Repo, da: Device, db: Device,
                               fromA: seq<Ref>, fromB: seq<Ref>, afterA: seq<Ref>, tagsA: seq<Ref>, tagsB: seq<Ref>)
    requires a.bare || IsClean(a)
    requires b.bare || IsClean(b)
    requires Lists(fromA, a.branches) && Lists(fromB, b.branches)
    requires Lists(afterA, BundleImported(a, db, fromB, tagsB).repo.branches)
    requires forall n :: n in a.branches && n in b.branches ==> Comparable(a.branches[n], b.branches[n])
    ensures BundleImported(a, db, fromB, tagsB).repo.branches == BundleImported(b, da, fromA, tagsA).repo.branches
    ensures BundleImported(a, db, fromB, tagsB).repo.branches == BundleImported(b, da, afterA, tagsA).repo.branches
  {
    var a' := BundleImported(a, db, fromB, tagsB).repo.branches;
    var b' := BundleImported(b, da, fromA, tagsA).repo.branches;
    var b'' := BundleImported(b, da, afterA, tagsA).repo.branches;
    forall n ensures Get(a', n) == Get(b', n) == Get(b'', n) {
      ImportJoins(a, b.branches, db, fromB, tagsB, n);
      ImportJoins(b, a.branches, da, fromA, tagsA, n);
      ImportJoins(b, a', da, afterA, tagsA, n);
      if n in a.branches && n in b.branches && IsAncestor(a.branches[n], b.branches[n])
        && IsAncestor(b.branches[n], a.branches[n]) {
        AncestorAntisymmetric(a.branches[n], b.branches[n]);
      }
    }
    SameLookups(a', b');
    SameLookups(a', b'');
  }

  lemma SameLookups<K, V>(a: map<K, V>, b: map<K, V>)
    requires forall k :: Get(a, k) == Get(b, k)
    ensures a == b
  {
    forall k ensures k in a <==> k in b { assert Get(a, k) == Get(b, k); }
    forall k | k in a ensures a[k] == b[k] { assert Get(a, k) == Get(b, k); }
  }
}
