/**
 * src/git.js: what importing a peer's bundle does to a repository's refs, index and working tree.
 * A commit is a value holding its tree and its parents, so equal object names mean equal
 * histories and the commit graph has no cycle.
 */
module Git {
  import opened Basics
  import Strings

  type Name = string
  type Device = string

  datatype Commit = Commit(tree: Tree, parents: seq<Commit>, stamp: nat)
  datatype Head = OnBranch(name: Name) | Detached(commit: Commit)
  datatype Ref = Ref(name: Name, oid: Commit)
  datatype Reason = NotClean | Diverged
  datatype Conflict = Conflict(branch: Name, reason: Reason)

  /** `ignored` holds the paths git does not report while they are untracked: .gitignore and info/exclude. */
  datatype Repo = Repo(
    branches: map<Name, Commit>,
    tags: map<Name, Commit>,
    remoteHeads: map<(Device, Name), Commit>,
    head: Head,
    bare: bool,
    tree: Tree,
    index: Tree,
    ignored: set<Path>)

  datatype Import = Import(repo: Repo, updated: seq<Name>, conflicts: seq<Conflict>)

  // ---------------------------------------------------------------- ancestry

  predicate IsAncestor(a: Commit, d: Commit)
    decreases d
  {
    a == d || exists i :: 0 <= i < |d.parents| && IsAncestor(a, d.parents[i])
  }

  lemma {:induction false} AncestorTransitive(a: Commit, b: Commit, c: Commit)
    requires IsAncestor(a, b) && IsAncestor(b, c)
    ensures IsAncestor(a, c)
    decreases c
  {
    if b != c {
      var i :| 0 <= i < |c.parents| && IsAncestor(b, c.parents[i]);
      AncestorTransitive(a, b, c.parents[i]);
    }
  }

  lemma {:induction false} NoCommitPrecedesItself(c: Commit, i: nat)
    requires i < |c.parents|
    ensures !IsAncestor(c, c.parents[i])
    decreases c
  {
    var p := c.parents[i];
    if IsAncestor(c, p) {
      assert c != p;
      var j :| 0 <= j < |p.parents| && IsAncestor(c, p.parents[j]);
      assert IsAncestor(p, c);
      AncestorTransitive(p, c, p.parents[j]);
      NoCommitPrecedesItself(p, j);
    }
  }

  lemma AncestorAntisymmetric(a: Commit, b: Commit)
    requires IsAncestor(a, b) && IsAncestor(b, a)
    ensures a == b
  {
    if a != b {
      var i :| 0 <= i < |b.parents| && IsAncestor(a, b.parents[i]);
      AncestorTransitive(b, a, b.parents[i]);
      NoCommitPrecedesItself(b, i);
    }
  }

  // ---------------------------------------------------------------- working tree

  function HeadCommit(r: Repo): Option<Commit> {
    match r.head
    case Detached(c) => Some(c)
    case OnBranch(n) => Get(r.branches, n)
  }

  function HeadTree(r: Repo): Tree {
    match HeadCommit(r)
    case Some(c) => c.tree
    case None => map[]
  }

  function CurrentBranch(r: Repo): Option<Name> {
    match r.head
    case OnBranch(n) => if r.bare then None else Some(n)
    case Detached(_) => None
  }

  /** `git status --porcelain` prints nothing. */
  predicate IsClean(r: Repo) {
    && r.index == HeadTree(r)
    && (forall p :: p in r.index ==> p in r.tree && r.tree[p] == r.index[p])
    && (forall p :: p in r.tree ==> p in r.index || p in r.ignored)
  }

  /**
   * Moving a clean working tree to another commit; ignored files in the way are overwritten, as git does by default.
   */
  function Materialize(r: Repo, head: Head, branches: map<Name, Commit>, next: Commit): Repo {
    r.(head := head, branches := branches, index := next.tree, tree := (r.tree - HeadTree(r).Keys) + next.tree)
  }

  // ---------------------------------------------------------------- importBundle

  datatype Action = Keep | Advance | Refuse(reason: Reason)

  /** What happens to one local branch when a bundle states `oid` for it. */
  function Decide(local: Option<Commit>, oid: Commit, checkedOut: bool, clean: bool): Action {
    match local
    case None => if checkedOut && !clean then Refuse(NotClean) else Advance
    case Some(l) =>
      if l == oid || IsAncestor(oid, l) then Keep
      else if IsAncestor(l, oid) then (if checkedOut && !clean then Refuse(NotClean) else Advance)
      else Refuse(Diverged)
  }

  function ImportBranch(s: Import, clean: bool, r: Ref): Import {
    var repo := s.repo;
    var checkedOut := CurrentBranch(repo) == Some(r.name);
    match Decide(Get(repo.branches, r.name), r.oid, checkedOut, clean)
    case Keep => s
    case Refuse(why) => s.(conflicts := s.conflicts + [Conflict(r.name, why)])
    case Advance =>
      var branches := repo.branches[r.name := r.oid];
      var repo' := if checkedOut then Materialize(repo, repo.head, branches, r.oid) else repo.(branches := branches);
      s.(repo := repo', updated := s.updated + [r.name])
  }

  function ImportBranches(s: Import, clean: bool, refs: seq<Ref>): Import {
    if refs == [] then s
    else ImportBranch(ImportBranches(s, clean, refs[..|refs| - 1]), clean, refs[|refs| - 1])
  }

  function ImportTag(s: Import, r: Ref): Import {
    if r.name in s.repo.tags then s
    else s.(repo := s.repo.(tags := s.repo.tags[r.name := r.oid]), updated := s.updated + [r.name])
  }

  function ImportTags(s: Import, refs: seq<Ref>): Import {
    if refs == [] then s else ImportTag(ImportTags(s, refs[..|refs| - 1]), refs[|refs| - 1])
  }

  function Fetch(remotes: map<(Device, Name), Commit>, device: Device, refs: seq<Ref>): map<(Device, Name), Commit> {
    if refs == [] then remotes
    else Fetch(remotes, device, refs[..|refs| - 1])[(device, refs[|refs| - 1].name) := refs[|refs| - 1].oid]
  }

  function Names(refs: seq<Ref>): seq<Name> {
    seq(|refs|, i requires 0 <= i < |refs| => refs[i].name)
  }

  function Preferred(names: seq<Name>): Name
    requires names != []
  {
    var all := set n | n in names;
    assert names[0] in all;
    if "main" in names then "main" else if "master" in names then "master" else Strings.Least(all)
  }

  function FirstCheckout(s: Import, clean: bool, wasEmpty: bool, heads: seq<Ref>): Import {
    var r := s.repo;
    if !r.bare && clean && wasEmpty && heads != []
       && (CurrentBranch(r).None? || CurrentBranch(r).value !in Names(heads))
       && Preferred(Names(heads)) in r.branches
    then
      var name := Preferred(Names(heads));
      s.(repo := Materialize(r, OnBranch(name), r.branches, r.branches[name]))
    else s
  }

  function BundleImported(r: Repo, device: Device, heads: seq<Ref>, tags: seq<Ref>): Import {
    if heads == [] && tags == [] then Import(r, [], [])
    else
      var clean := r.bare || IsClean(r);
      var fetched := r.(remoteHeads := Fetch(r.remoteHeads, device, heads));
      var moved := ImportBranches(Import(fetched, [], []), clean, heads);
      FirstCheckout(ImportTags(moved, tags), clean, r.branches == map[], heads)
  }

  /** The repository on disk, which importBundle updates one ref at a time. */
  class GitRepository {
    var disk: Repo

    constructor (initial: Repo)
      ensures disk == initial
    {
      disk := initial;
    }

    method FetchHeads(device: Device, heads: seq<Ref>)
      modifies this
      ensures disk == old(disk).(remoteHeads := Fetch(old(disk.remoteHeads), device, heads))
    {
      var i := 0;
      while i < |heads|
        invariant 0 <= i <= |heads|
        invariant disk == old(disk).(remoteHeads := Fetch(old(disk.remoteHeads), device, heads[..i]))
      {
        assert heads[..i + 1][..i] == heads[..i];
        disk := disk.(remoteHeads := disk.remoteHeads[(device, heads[i].name) := heads[i].oid]);
        i := i + 1;
      }
      assert heads[..|heads|] == heads;
    }

    method AdvanceBranches(clean: bool, heads: seq<Ref>) returns (updated: seq<Name>, conflicts: seq<Conflict>)
      modifies this
      ensures Import(disk, updated, conflicts) == ImportBranches(Import(old(disk), [], []), clean, heads)
    {
      updated, conflicts := [], [];
      var i := 0;
      while i < |heads|
        invariant 0 <= i <= |heads|
        invariant Import(disk, updated, conflicts) == ImportBranches(Import(old(disk), [], []), clean, heads[..i])
      {
        assert heads[..i + 1][..i] == heads[..i];
        var name, oid := heads[i].name, heads[i].oid;
        var checkedOut := CurrentBranch(disk) == Some(name);
        if name in disk.branches && (disk.branches[name] == oid || IsAncestor(oid, disk.branches[name])) {
          // nothing new
        } else if name in disk.branches && !IsAncestor(disk.branches[name], oid) {
          conflicts := conflicts + [Conflict(name, Diverged)];
        } else if checkedOut && !clean {
          conflicts := conflicts + [Conflict(name, NotClean)];
        } else {
          var branches := disk.branches[name := oid];
          disk := if checkedOut then Materialize(disk, disk.head, branches, oid) else disk.(branches := branches);
          updated := updated + [name];
        }
        i := i + 1;
      }
      assert heads[..|heads|] == heads;
    }

    method CreateTags(updated: seq<Name>, ghost conflicts: seq<Conflict>, tags: seq<Ref>) returns (updated': seq<Name>)
      modifies this
      ensures Import(disk, updated', conflicts) == ImportTags(Import(old(disk), updated, conflicts), tags)
    {
      updated' := updated;
      var i := 0;
      while i < |tags|
        invariant 0 <= i <= |tags|
        invariant Import(disk, updated', conflicts) == ImportTags(Import(old(disk), updated, conflicts), tags[..i])
      {
        assert tags[..i + 1][..i] == tags[..i];
        if tags[i].name !in disk.tags {
          disk := disk.(tags := disk.tags[tags[i].name := tags[i].oid]);
          updated' := updated' + [tags[i].name];
        }
        i := i + 1;
      }
      assert tags[..|tags|] == tags;
    }

    method ImportBundle(device: Device, heads: seq<Ref>, tags: seq<Ref>)
      returns (updated: seq<Name>, conflicts: seq<Conflict>)
      modifies this
      ensures Import(disk, updated, conflicts) == BundleImported(old(disk), device, heads, tags)
    {
      if heads == [] && tags == [] { return [], []; }
      var clean := disk.bare || IsClean(disk);
      var wasEmpty := disk.branches == map[];
      FetchHeads(device, heads);
      updated, conflicts := AdvanceBranches(clean, heads);
      updated := CreateTags(updated, conflicts, tags);
      disk := FirstCheckout(Import(disk, updated, conflicts), clean, wasEmpty, heads).repo;
    }
  }
}
