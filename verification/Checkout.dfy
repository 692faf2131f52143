/** What an import does to the index and the working tree (src/git.js:203-258). */
module Checkout {
  import opened Basics
  import Strings
  import opened Git
  import opened History

  /** Nothing but refs moved: the checked-out commit, the index and the files are as before. */
  ghost predicate SameCheckout(r: Repo, r': Repo) {
    r'.tree == r.tree && r'.index == r.index && HeadTree(r') == HeadTree(r)
  }

  /** The files of one commit were exchanged for those of another. */
  ghost predicate Moved(r: Repo, r': Repo) {
    r'.index == HeadTree(r') && r'.tree == (r.tree - HeadTree(r).Keys) + HeadTree(r')
  }

  lemma CleanStaysMoved(r: Repo, r': Repo)
    requires IsClean(r) && SameCheckout(r, r')
    ensures Moved(r, r')
  {
    assert (r.tree - HeadTree(r).Keys) + HeadTree(r') == r.tree;
  }

  lemma MovedNowhere(r: Repo, r': Repo)
    requires IsClean(r) && Moved(r, r') && HeadTree(r') == HeadTree(r)
    ensures SameCheckout(r, r')
  {
    assert r'.tree == r.tree;
  }

  lemma {:induction false} OtherBranches(s: Import, clean: bool, refs: seq<Ref>)
    requires !s.repo.bare
    requires CurrentBranch(s.repo).Some? ==> CurrentBranch(s.repo).value !in Names(refs)
    ensures SameCheckout(s.repo, ImportBranches(s, clean, refs).repo)
    ensures HeadCommit(ImportBranches(s, clean, refs).repo) == HeadCommit(s.repo)
  {
    if refs != [] {
      var init, last := refs[..|refs| - 1], refs[|refs| - 1];
      assert Names(refs) == Names(init) + [last.name];
      OtherBranches(s, clean, init);
      BranchesFrame(s, clean, init);
    }
  }

  lemma OneBranch(s: Import, clean: bool, ref: Ref)
    requires !s.repo.bare
    ensures var t := ImportBranch(s, clean, ref).repo;
            SameCheckout(s.repo, t) || (clean && CurrentBranch(s.repo) == Some(ref.name) && Moved(s.repo, t))
  {}

  lemma {:induction false} BranchesTree(s: Import, clean: bool, refs: seq<Ref>)
    requires !s.repo.bare && Distinct(Names(refs))
    ensures var t := ImportBranches(s, clean, refs).repo;
            SameCheckout(s.repo, t)
            || (clean && CurrentBranch(s.repo).Some? && CurrentBranch(s.repo).value in Names(refs) && Moved(s.repo, t))
  {
    if refs != [] {
      var init, last := refs[..|refs| - 1], refs[|refs| - 1];
      assert Names(refs) == Names(init) + [last.name];
      LastOfDistinct(Names(refs));
      assert Names(refs)[..|refs| - 1] == Names(init);
      BranchesFrame(s, clean, init);
      OneBranch(ImportBranches(s, clean, init), clean, last);
      if CurrentBranch(s.repo) == Some(last.name) {
        OtherBranches(s, clean, init);
      } else {
        BranchesTree(s, clean, init);
      }
    }
  }

  lemma TagsTree(s: Import, tags: seq<Ref>)
    ensures SameCheckout(s.repo, ImportTags(s, tags).repo)
  {
    TagsFrame(s, tags);
  }

  lemma FirstCheckoutTree(s: Import, clean: bool, wasEmpty: bool, heads: seq<Ref>)
    ensures var t := FirstCheckout(s, clean, wasEmpty, heads).repo;
            || SameCheckout(s.repo, t)
            || (clean && (CurrentBranch(s.repo).None? || CurrentBranch(s.repo).value !in Names(heads))
                && Moved(s.repo, t))
  {}

  /** A dirty tree is left alone; a clean one becomes the new HEAD, keeping only files Git does not track. */
  lemma TreeAfterBundle(r: Repo, device: Device, heads: seq<Ref>, tags: seq<Ref>)
    requires !r.bare && Distinct(Names(heads))
    ensures var t := BundleImported(r, device, heads, tags).repo;
            && t.ignored == r.ignored && !t.bare
            && (IsClean(r) ==> Moved(r, t))
            && (!IsClean(r) ==> SameCheckout(r, t))
  {
    if heads == [] && tags == [] {
      if IsClean(r) { CleanStaysMoved(r, r); }
    } else {
      var clean := IsClean(r);
      var s := Import(r.(remoteHeads := Fetch(r.remoteHeads, device, heads)), [], []);
      assert SameCheckout(r, s.repo);
      var b := ImportBranches(s, clean, heads);
      BranchesTree(s, clean, heads);
      BranchesFrame(s, clean, heads);
      TagsFrame(b, tags);
      var t := ImportTags(b, tags);
      TagsTree(b, tags);
      FirstCheckoutTree(t, clean, r.branches == map[], heads);
      var u := FirstCheckout(t, clean, r.branches == map[], heads).repo;
      if SameCheckout(r, u) && clean { CleanStaysMoved(r, u); }
    }
  }

  /** HEAD stays on its branch when the bundle states that branch, or states none. */
  lemma BranchKept(r: Repo, device: Device, heads: seq<Ref>, tags: seq<Ref>, b: Name)
    requires !r.bare && r.head == OnBranch(b)
    requires heads == [] || b in Names(heads)
    ensures BundleImported(r, device, heads, tags).repo.head == OnBranch(b)
  {
    var s := Import(r.(remoteHeads := Fetch(r.remoteHeads, device, heads)), [], []);
    BranchesFrame(s, IsClean(r), heads);
    TagsFrame(ImportBranches(s, IsClean(r), heads), tags);
  }

  /** A repository lagging behind on its branch ends at the stated commit when clean, or when already there. */
  lemma BranchCaughtUp(r: Repo, device: Device, heads: seq<Ref>, tags: seq<Ref>, branches: map<Name, Commit>, b: Name)
    requires !r.bare && r.head == OnBranch(b)
    requires Lists(heads, branches)
    requires b in branches || branches == map[]
    requires b in r.branches ==> b in branches && IsAncestor(r.branches[b], branches[b])
    requires IsClean(r) || Get(r.branches, b) == Get(branches, b)
    ensures var t := BundleImported(r, device, heads, tags).repo;
            t.head == OnBranch(b) && Get(t.branches, b) == Get(branches, b)
  {
    if heads != [] { assert heads[0].name in branches; }
    BranchKept(r, device, heads, tags, b);
    ImportJoins(r, branches, device, heads, tags, b);
    if b in r.branches && IsAncestor(branches[b], r.branches[b]) { AncestorAntisymmetric(branches[b], r.branches[b]); }
  }

  // ---------------------------------------------------------------- which commit a bundle checks out

  /**
   * The commit a clean repository will have checked out, read off the repository and the stated heads: its own
   * branch's, when that is missing or behind; in a repository without branches the preferred one, unless its
   * own branch is stated.
   */
  function CheckedOut(r: Repo, heads: seq<Ref>): Option<Commit> {
    if heads == [] then None
    else
      match if r.head.OnBranch? then Stated(heads, r.head.name) else None
      case Some(oid) =>
        if r.head.name !in r.branches || IsAncestor(r.branches[r.head.name], oid) then Some(oid) else None
      case None => if r.branches == map[] then Stated(heads, Preferred(Names(heads))) else None
  }

  /** The fetched repository, its branches moved and its tags created. */
  function BeforeFirstCheckout(r: Repo, device: Device, heads: seq<Ref>, tags: seq<Ref>): Import {
    var s := Import(r.(remoteHeads := Fetch(r.remoteHeads, device, heads)), [], []);
    ImportTags(ImportBranches(s, r.bare || IsClean(r), heads), tags)
  }

  lemma BranchBeforeFirstCheckout(r: Repo, device: Device, heads: seq<Ref>, tags: seq<Ref>, n: Name)
    requires !r.bare && IsClean(r) && Distinct(Names(heads))
    ensures var t := BeforeFirstCheckout(r, device, heads, tags).repo;
            t.head == r.head && t.bare == r.bare
            && Get(t.branches, n) == Outcome(Get(r.branches, n), Stated(heads, n), false)
  {
    var s := Import(r.(remoteHeads := Fetch(r.remoteHeads, device, heads)), [], []);
    BranchAfterImport(s, true, heads, n);
    BranchesFrame(s, true, heads);
    TagsFrame(ImportBranches(s, true, heads), tags);
  }

  lemma OwnBranchStated(r: Repo, device: Device, heads: seq<Ref>, tags: seq<Ref>, b: Name)
    requires !r.bare && IsClean(r) && Distinct(Names(heads)) && r.head == OnBranch(b) && b in Names(heads)
    ensures HeadTree(BundleImported(r, device, heads, tags).repo) ==
              if CheckedOut(r, heads).Some? then CheckedOut(r, heads).value.tree else HeadTree(r)
  {
    StatedIffNamed(heads, b);
    BranchBeforeFirstCheckout(r, device, heads, tags, b);
    assert BundleImported(r, device, heads, tags) == BeforeFirstCheckout(r, device, heads, tags);
    var oid := Stated(heads, b).value;
    if b in r.branches && IsAncestor(r.branches[b], oid) && IsAncestor(oid, r.branches[b]) {
      AncestorAntisymmetric(oid, r.branches[b]);
    }
  }

  lemma PreferredIsNamed(names: seq<Name>)
    requires names != []
    ensures Preferred(names) in names
  {}

  lemma OwnBranchNotStated(r: Repo, device: Device, heads: seq<Ref>, tags: seq<Ref>)
    requires !r.bare && IsClean(r) && Distinct(Names(heads)) && heads != []
    requires r.head.OnBranch? ==> r.head.name !in Names(heads)
    ensures HeadTree(BundleImported(r, device, heads, tags).repo) ==
              if CheckedOut(r, heads).Some? then CheckedOut(r, heads).value.tree else HeadTree(r)
  {
    if r.head.OnBranch? { StatedIffNamed(heads, r.head.name); }
    var s := Import(r.(remoteHeads := Fetch(r.remoteHeads, device, heads)), [], []);
    OtherBranches(s, true, heads);
    TagsFrame(ImportBranches(s, true, heads), tags);
    var n := Preferred(Names(heads));
    PreferredIsNamed(Names(heads));
    StatedIffNamed(heads, n);
    BranchBeforeFirstCheckout(r, device, heads, tags, n);
  }

  /** So the tree that HEAD names after an import is known before it. */
  lemma HeadTreeAfterBundle(r: Repo, device: Device, heads: seq<Ref>, tags: seq<Ref>)
    requires !r.bare && IsClean(r) && Distinct(Names(heads))
    ensures HeadTree(BundleImported(r, device, heads, tags).repo) ==
              if CheckedOut(r, heads).Some? then CheckedOut(r, heads).value.tree else HeadTree(r)
  {
    if heads == [] {
      TagsFrame(Import(r, [], []), tags);
    } else if r.head.OnBranch? && r.head.name in Names(heads) {
      OwnBranchStated(r, device, heads, tags, r.head.name);
    } else {
      OwnBranchNotStated(r, device, heads, tags);
    }
  }

  /**
   * The first checkout goes to main when that is stated, else to master, else to the first name in code-unit order, and
   * to the commit stated for it.
   */
  lemma FirstCheckoutGoesTo(r: Repo, device: Device, heads: seq<Ref>, tags: seq<Ref>)
    requires !r.bare && IsClean(r) && r.branches == map[] && heads != [] && Distinct(Names(heads))
    requires r.head.OnBranch? ==> r.head.name !in Names(heads)
    ensures var t, names := BundleImported(r, device, heads, tags).repo, Names(heads);
            && t.head.OnBranch? && t.head.name in names
            && ("main" in names ==> t.head.name == "main")
            && ("main" !in names && "master" in names ==> t.head.name == "master")
            && ("main" !in names && "master" !in names ==>
                  forall n :: n in names ==> n == t.head.name || Strings.Before(t.head.name, n))
            && Stated(heads, t.head.name).Some? && HeadCommit(t) == Stated(heads, t.head.name)
  {
    var n := Preferred(Names(heads));
    PreferredIsNamed(Names(heads));
    StatedIffNamed(heads, n);
    BranchBeforeFirstCheckout(r, device, heads, tags, n);
    var s := BeforeFirstCheckout(r, device, heads, tags);
    assert BundleImported(r, device, heads, tags) == FirstCheckout(s, true, true, heads);
  }
}
