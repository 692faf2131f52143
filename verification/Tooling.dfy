/**
 * src/cloud-storage.js:53-75, 263-305: which directory a path's tooling artifacts live in, decided from the
 * path by the watcher and from the whole tree by the sweep.
 */
module Tooling {
  import opened Basics
  import opened Strings
  import opened Paths

  type Parts = seq<string>

  const GIT := ".git"
  const TRASH := ".Trash"
  const REPOSITORY_CACHE_DIRECTORY := "gitpigeon"

  /** The first tooling directory along a path: a tooling name, or the cache in a .git directory. */
  function ToolingOf(parts: Parts): (d: Option<Parts>)
    ensures d.Some? ==> d.value != [] && d.value <= parts
  {
    if parts == [] then None
    else if parts[0] == GIT then
      if |parts| > 1 && parts[1] == REPOSITORY_CACHE_DIRECTORY then Some(parts[..2]) else None
    else if IsToolingDirectory(parts[0]) then Some(parts[..1])
    else match ToolingOf(parts[1..])
      case None => None
      case Some(d) => Some([parts[0]] + d)
  }

  // ---------------------------------------------------------------- paths as strings

  function Slashed(parts: Parts): string {
    Join(parts, '/')
  }

  function ForwardSlashes(s: string): string {
    seq(|s|, i requires 0 <= i < |s| => if s[i] == '\\' then '/' else s[i])
  }

  function NonEmpty(parts: Parts): Parts {
    if parts == [] then [] else (if parts[0] == "" then [] else [parts[0]]) + NonEmpty(parts[1..])
  }

  function PartsOf(path: string): Parts {
    NonEmpty(Split(ForwardSlashes(path), '/'))
  }

  function ToolingDirectoryOf(path: string): Option<string> {
    match ToolingOf(PartsOf(path))
    case None => None
    case Some(d) => Some(Slashed(d))
  }

  /** The method form: the first part that decides ends the loop. */
  method FindToolingDirectoryOf(path: string) returns (d: Option<string>)
    ensures d == ToolingDirectoryOf(path)
  {
    var parts := PartsOf(path);
    var index := 0;
    assert parts[0..] == parts;
    assert ToolingOf(parts).Some? ==> [] + ToolingOf(parts).value == ToolingOf(parts).value;
    while index < |parts|
      invariant index <= |parts|
      invariant ToolingOf(parts) == Under(parts[..index], ToolingOf(parts[index..]))
    {
      PartDecides(parts, index);
      if parts[index] == GIT {
        if index + 1 < |parts| && parts[index + 1] == REPOSITORY_CACHE_DIRECTORY {
          return Some(Slashed(parts[..index + 2]));
        }
        return None;
      }
      if IsToolingDirectory(parts[index]) { return Some(Slashed(parts[..index + 1])); }
      index := index + 1;
    }
    d := None;
  }

  /** What the part at this index settles, and what it leaves to the parts after it. */
  lemma PartDecides(parts: Parts, index: nat)
    requires index < |parts|
    ensures Under(parts[..index], ToolingOf(parts[index..])) ==
              if parts[index] == GIT then
                if index + 1 < |parts| && parts[index + 1] == REPOSITORY_CACHE_DIRECTORY
                then Some(parts[..index + 2]) else None
              else if IsToolingDirectory(parts[index]) then Some(parts[..index + 1])
              else Under(parts[..index + 1], ToolingOf(parts[index + 1..]))
  {
    var rest := parts[index..];
    assert rest[0] == parts[index] && rest[1..] == parts[index + 1..];
    if parts[index] == GIT {
      if |rest| > 1 && rest[1] == REPOSITORY_CACHE_DIRECTORY {
        assert parts[..index + 2] == parts[..index] + rest[..2];
      }
    } else if IsToolingDirectory(parts[index]) {
      assert parts[..index + 1] == parts[..index] + rest[..1];
    } else {
      UnderMore(parts, index, ToolingOf(parts[index + 1..]));
    }
  }

  function Under(prefix: Parts, d: Option<Parts>): Option<Parts> {
    if d.Some? then Some(prefix + d.value) else None
  }

  lemma UnderMore(parts: Parts, index: nat, d: Option<Parts>)
    requires index < |parts|
    ensures Under(parts[..index], Under([parts[index]], d)) == Under(parts[..index + 1], d)
  {
    if d.Some? { assert parts[..index] + ([parts[index]] + d.value) == parts[..index + 1] + d.value; }
  }

  // ---------------------------------------------------------------- the path's answer

  /** The answer for a directory holds for everything in it. */
  lemma {:induction false} AnswerForAllInside(p: Parts, q: Parts)
    requires p <= q && ToolingOf(p).Some?
    ensures ToolingOf(q) == ToolingOf(p)
  {
    if p[0] == GIT || IsToolingDirectory(p[0]) {
      assert q[..1] == p[..1];
      if |p| > 1 { assert q[..2] == p[..2] && q[1] == p[1]; }
    } else {
      AnswerForAllInside(p[1..], q[1..]);
    }
  }

  /** An answer is its own answer. */
  lemma {:induction false} AnswerIsOwnAnswer(p: Parts)
    requires ToolingOf(p).Some?
    ensures ToolingOf(ToolingOf(p).value) == ToolingOf(p)
  {
    var d := ToolingOf(p).value;
    assert |d| <= 2 ==> d[..|d|] == d;
    if p[0] != GIT && !IsToolingDirectory(p[0]) {
      AnswerIsOwnAnswer(p[1..]);
      assert d[1..] == ToolingOf(p[1..]).value;
    }
  }

  // ---------------------------------------------------------------- the tree

  datatype Node = File | Directory(readable: bool, listing: Listing)
  datatype Listing = End | Entry(name: string, node: Node, rest: Listing)

  /** A directory at this place, every directory above it readable. */
  predicate Reaches(listing: Listing, place: Parts) {
    place != [] && listing.Entry? &&
    (|| (listing.name == place[0] && listing.node.Directory?
         && (|place| == 1 || (listing.node.readable && Reaches(listing.node.listing, place[1..]))))
     || Reaches(listing.rest, place))
  }

  function Children(node: Node): Listing {
    if node.Directory? && node.readable then node.listing else End
  }

  predicate HasCache(listing: Listing) {
    listing.Entry? && ((listing.name == REPOSITORY_CACHE_DIRECTORY && listing.node.Directory?)
                       || HasCache(listing.rest))
  }

  /** What the walk finds in a listing, in its order. */
  function Found(listing: Listing, prefix: Parts): seq<Parts> {
    if listing.End? then []
    else
      (if listing.node.File? || listing.name == TRASH then []
       else if listing.name == GIT then
         if HasCache(Children(listing.node)) then [prefix + [GIT, REPOSITORY_CACHE_DIRECTORY]] else []
       else if IsToolingDirectory(listing.name) then [prefix + [listing.name]]
       else if !listing.node.readable then []
       else Found(listing.node.listing, prefix + [listing.name]))
      + Found(listing.rest, prefix)
  }

  /** A directory the walk goes down into and can list. */
  predicate Walked(name: string, node: Node) {
    node.Directory? && node.readable && name != TRASH && name != GIT && !IsToolingDirectory(name)
  }

  /** How many entries the walk counts. */
  function Visits(listing: Listing): nat {
    if listing.End? then 0
    else
      1 + (if Walked(listing.name, listing.node) then Visits(listing.node.listing) else 0)
      + Visits(listing.rest)
  }

  lemma {:induction false} CacheReached(listing: Listing)
    ensures HasCache(listing) <==> Reaches(listing, [REPOSITORY_CACHE_DIRECTORY])
  {
    if listing.Entry? { CacheReached(listing.rest); }
  }

  /** A directory the sweep is to report. */
  predicate Reportable(listing: Listing, place: Parts) {
    Reaches(listing, place) && ToolingOf(place) == Some(place) && TRASH !in place
  }

  lemma CacheAnswer(place: Parts)
    requires place != [] && place[0] == GIT
    ensures ToolingOf(place) == Some(place) <==> place == [GIT, REPOSITORY_CACHE_DIRECTORY]
  {
    if |place| > 1 && place[1] == REPOSITORY_CACHE_DIRECTORY { assert place[..2] == [GIT, REPOSITORY_CACHE_DIRECTORY]; }
  }

  lemma NameAnswer(place: Parts)
    requires place != [] && place[0] != GIT && IsToolingDirectory(place[0])
    ensures ToolingOf(place) == Some([place[0]])
  {
    assert place[..1] == [place[0]];
  }

  lemma DeeperAnswer(place: Parts, rest: Parts)
    requires place != [] && place[0] != GIT && !IsToolingDirectory(place[0]) && rest == place[1..]
    ensures ToolingOf(place) == Some(place) <==> ToolingOf(rest) == Some(rest)
  {
    assert ToolingOf(place) == Under([place[0]], ToolingOf(rest));
    assert place == [place[0]] + rest;
    if ToolingOf(rest).Some? { SamePlace([place[0]], ToolingOf(rest).value, rest); }
  }

  /** One entry's share: what it makes reportable by itself. */
  predicate Entered(name: string, node: Node, place: Parts) {
    && place != [] && name == place[0] && node.Directory?
    && (|place| == 1 || (node.readable && Reaches(node.listing, place[1..])))
  }

  /** What the walk adds for one entry. */
  function FoundHere(name: string, node: Node, prefix: Parts): seq<Parts> {
    if node.File? || name == TRASH then []
    else if name == GIT then if HasCache(Children(node)) then [prefix + [GIT, REPOSITORY_CACHE_DIRECTORY]] else []
    else if IsToolingDirectory(name) then [prefix + [name]]
    else if !node.readable then []
    else Found(node.listing, prefix + [name])
  }

  lemma FoundSplit(listing: Listing, prefix: Parts)
    requires listing.Entry?
    ensures Found(listing, prefix) == FoundHere(listing.name, listing.node, prefix) + Found(listing.rest, prefix)
  {}

  lemma NoTrash(place: Parts)
    requires place != []
    ensures TRASH in place <==> place[0] == TRASH || TRASH in place[1..]
  {
    assert place == [place[0]] + place[1..];
  }

  /**
   * The walk finds exactly the directories it can reach that are their own answer and not in a trash: every
   * one of them, nothing else.
   */
  lemma {:induction false} FoundExactly(listing: Listing, prefix: Parts, place: Parts)
    ensures prefix + place in Found(listing, prefix) && place != [] <==> Reportable(listing, place)
    decreases listing
  {
    if listing.Entry? && place != [] {
      FoundSplit(listing, prefix);
      FoundExactly(listing.rest, prefix, place);
      FoundHereExactly(listing.name, listing.node, prefix, place);
    }
  }

  lemma {:induction false} FoundHereExactly(name: string, node: Node, prefix: Parts, place: Parts)
    requires place != []
    ensures prefix + place in FoundHere(name, node, prefix) <==>
              Entered(name, node, place) && ToolingOf(place) == Some(place) && TRASH !in place
    decreases node
  {
    NoTrash(place);
    if node.Directory? && name != TRASH {
      if name == GIT {
        CacheHereExactly(node, prefix, place);
      } else if IsToolingDirectory(name) {
        ToolingHereExactly(name, node, prefix, place);
      } else if node.readable {
        DeeperExactly(name, node, prefix, place);
      } else {
        UnreadableHolds(name, node, place);
      }
    }
  }

  lemma CacheHereExactly(node: Node, prefix: Parts, place: Parts)
    requires place != [] && node.Directory?
    ensures prefix + place in FoundHere(GIT, node, prefix) <==>
              Entered(GIT, node, place) && ToolingOf(place) == Some(place) && TRASH !in place
  {
    CacheReached(node.listing);
    SamePlace(prefix, place, [GIT, REPOSITORY_CACHE_DIRECTORY]);
    if place[0] == GIT { CacheAnswer(place); }
    if place == [GIT, REPOSITORY_CACHE_DIRECTORY] { assert place[1..] == [REPOSITORY_CACHE_DIRECTORY]; }
  }

  lemma SamePlace(prefix: Parts, a: Parts, b: Parts)
    ensures prefix + a == prefix + b <==> a == b
  {
    if prefix + a == prefix + b { assert (prefix + a)[|prefix|..] == a && (prefix + b)[|prefix|..] == b; }
  }

  lemma ToolingHereExactly(name: string, node: Node, prefix: Parts, place: Parts)
    requires place != [] && node.Directory? && name != TRASH && name != GIT && IsToolingDirectory(name)
    ensures prefix + place in FoundHere(name, node, prefix) <==>
              Entered(name, node, place) && ToolingOf(place) == Some(place) && TRASH !in place
  {
    SamePlace(prefix, place, [name]);
    if place[0] == name {
      NameAnswer(place);
    }
  }

  lemma UnreadableHolds(name: string, node: Node, place: Parts)
    requires place != [] && name != GIT && !IsToolingDirectory(name) && node.Directory? && !node.readable
    ensures !(Entered(name, node, place) && ToolingOf(place) == Some(place))
  {
    if place == [name] { assert place[1..] == []; }
  }

  lemma {:induction false} DeeperExactly(name: string, node: Node, prefix: Parts, place: Parts)
    requires place != [] && Walked(name, node)
    ensures prefix + place in FoundHere(name, node, prefix) <==>
              Entered(name, node, place) && ToolingOf(place) == Some(place) && TRASH !in place
    decreases node, 0
  {
    NoTrash(place);
    if place[0] == name {
      DeeperAnswer(place, place[1..]);
      assert prefix + place == prefix + [name] + place[1..];
      FoundExactly(node.listing, prefix + [name], place[1..]);
      if place[1..] == [] && prefix + place in Found(node.listing, prefix + [name]) {
        FoundIsBelow(node.listing, prefix + [name], prefix + place);
      }
    } else {
      assert (prefix + place)[|prefix|] == place[0];
      if prefix + place in Found(node.listing, prefix + [name]) {
        FoundIsBelow(node.listing, prefix + [name], prefix + place);
      }
    }
  }

  lemma {:induction false} FoundIsBelow(listing: Listing, prefix: Parts, d: Parts)
    requires d in Found(listing, prefix)
    ensures prefix <= d && d != prefix
    decreases listing
  {
    FoundSplit(listing, prefix);
    if d in Found(listing.rest, prefix) {
      FoundIsBelow(listing.rest, prefix, d);
    } else if Walked(listing.name, listing.node) {
      FoundIsBelow(listing.node.listing, prefix + [listing.name], d);
    }
  }

  // ---------------------------------------------------------------- sweep and event scan agree

  /** A place above a reachable one can be reached. */
  lemma {:induction false} ReachesAbove(listing: Listing, d: Parts, p: Parts)
    requires Reaches(listing, p) && d != [] && d <= p
    ensures Reaches(listing, d)
    decreases listing
  {
    if Entered(listing.name, listing.node, p) {
      if |d| > 1 { ReachesAbove(listing.node.listing, d[1..], p[1..]); }
    } else {
      ReachesAbove(listing.rest, d, p);
    }
  }

  /**
   * The answer the watcher reads off any path is in the sweep's result exactly when the sweep can reach it outside a
   * trash.
   */
  lemma AnswerIsFoundExactlyWhen(root: Listing, p: Parts)
    requires ToolingOf(p).Some?
    ensures ToolingOf(p).value in Found(root, []) <==> Reaches(root, ToolingOf(p).value) && TRASH !in ToolingOf(p).value
  {
    var d := ToolingOf(p).value;
    AnswerIsOwnAnswer(p);
    FoundExactly(root, [], d);
    assert [] + d == d;
  }

  /** So it is there for every directory outside a trash. */
  lemma SweepHasEveryAnswer(root: Listing, p: Parts)
    requires Reaches(root, p) && TRASH !in p && ToolingOf(p).Some?
    ensures ToolingOf(p).value in Found(root, [])
  {
    ReachesAbove(root, ToolingOf(p).value, p);
    AnswerIsFoundExactlyWhen(root, p);
  }

  /** What the sweep finds is a directory, is its own answer, and lies in no other place it finds. */
  lemma FoundStandsAlone(root: Listing, d: Parts)
    requires d in Found(root, [])
    ensures Reaches(root, d) && ToolingOf(d) == Some(d)
    ensures forall e :: e in Found(root, []) && e <= d ==> e == d
  {
    FoundIsBelow(root, [], d);
    FoundExactly(root, [], d);
    assert [] + d == d;
    forall e | e in Found(root, []) && e <= d ensures e == d {
      FoundIsBelow(root, [], e);
      FoundExactly(root, [], e);
      assert [] + e == e;
      AnswerForAllInside(e, d);
    }
  }

  // ---------------------------------------------------------------- read off a string

  predicate Names(parts: Parts) {
    forall i :: 0 <= i < |parts| ==> parts[i] != "" && '/' !in parts[i]
  }

  lemma {:induction false} AllKept(parts: Parts)
    requires Names(parts)
    ensures NonEmpty(parts) == parts
  {
    if parts != [] { AllKept(parts[1..]); }
  }

  lemma {:induction false} NoBackslashIn(parts: Parts)
    requires forall i :: 0 <= i < |parts| ==> '\\' !in parts[i]
    ensures '\\' !in Slashed(parts)
  {
    if |parts| > 1 { NoBackslashIn(parts[1..]); }
  }

  lemma {:induction false} SplitKeepsOut(s: string, c: char)
    requires c !in s
    ensures forall x :: x in Split(s, '/') ==> c !in x
  {
    if s != "" { SplitKeepsOut(s[1..], c); }
  }

  lemma {:induction false} NonEmptyIsPart(parts: Parts)
    ensures forall x :: x in NonEmpty(parts) ==> x in parts
  {
    if parts != [] { NonEmptyIsPart(parts[1..]); }
  }

  /** Backslashes count as separators, so an answer never holds one. */
  lemma AnswerHasNoBackslash(path: string)
    ensures ToolingDirectoryOf(path).Some? ==> '\\' !in ToolingDirectoryOf(path).value
  {
    var forward := ForwardSlashes(path);
    SplitKeepsOut(forward, '\\');
    NonEmptyIsPart(Split(forward, '/'));
    var d := ToolingOf(PartsOf(path));
    if d.Some? {
      forall i | 0 <= i < |d.value| ensures '\\' !in d.value[i] {
        assert d.value[i] == PartsOf(path)[i];
        assert PartsOf(path)[i] in PartsOf(path);
      }
      NoBackslashIn(d.value);
    }
  }

  /**
   * A found directory is the watcher's answer for its own path exactly when no name on the path has a backslash in it.
   */
  lemma FoundIsOwnAnswerExactlyWhen(root: Listing, d: Parts)
    requires d in Found(root, []) && Names(d)
    ensures ToolingDirectoryOf(Slashed(d)) == Some(Slashed(d)) <==> '\\' !in Slashed(d)
  {
    FoundStandsAlone(root, d);
    AnswerHasNoBackslash(Slashed(d));
    if '\\' !in Slashed(d) {
      assert ForwardSlashes(Slashed(d)) == Slashed(d);
      SplitJoin(d, '/');
      AllKept(d);
    }
  }

  // ---------------------------------------------------------------- agreement on the strings themselves

  /** Every name is one a file system allows: not empty, no slash. */
  predicate FileSystem(listing: Listing) {
    listing.Entry? ==>
      && listing.name != "" && '/' !in listing.name && FileSystem(listing.rest)
      && (listing.node.Directory? ==> FileSystem(listing.node.listing))
  }

  lemma {:induction false} ReachedIsNamed(listing: Listing, place: Parts)
    requires FileSystem(listing) && Reaches(listing, place)
    ensures Names(place)
    decreases listing
  {
    if Entered(listing.name, listing.node, place) {
      if |place| > 1 { ReachedIsNamed(listing.node.listing, place[1..]); }
      forall i | 0 <= i < |place| ensures place[i] != "" && '/' !in place[i] {
        if i > 0 { assert place[i] == place[1..][i - 1]; }
      }
    } else {
      ReachedIsNamed(listing.rest, place);
    }
  }

  lemma {:induction false} SplitHasNoSlash(s: string)
    ensures forall x :: x in Split(s, '/') ==> '/' !in x
  {
    if s != "" { SplitHasNoSlash(s[1..]); }
  }

  lemma {:induction false} KeptAreNonEmpty(parts: Parts)
    ensures forall x :: x in NonEmpty(parts) ==> x in parts && x != ""
  {
    if parts != [] { KeptAreNonEmpty(parts[1..]); }
  }

  lemma PartsAreNames(path: string)
    ensures Names(PartsOf(path))
  {
    SplitHasNoSlash(ForwardSlashes(path));
    KeptAreNonEmpty(Split(ForwardSlashes(path), '/'));
    forall i | 0 <= i < |PartsOf(path)| ensures PartsOf(path)[i] != "" && '/' !in PartsOf(path)[i] {
      assert PartsOf(path)[i] in PartsOf(path);
    }
  }

  lemma SlashedOnce(a: Parts, b: Parts)
    requires Names(a) && Names(b) && a != [] && b != [] && Slashed(a) == Slashed(b)
    ensures a == b
  {
    SplitJoin(a, '/');
    SplitJoin(b, '/');
  }

  /**
   * Of any string a watcher may be told, the directory it names is in this result exactly when the sweep could reach
   * it.
   */
  ghost predicate Agrees(root: Listing, result: seq<string>, path: string) {
    ToolingDirectoryOf(path).Some? ==>
      var d := ToolingOf(PartsOf(path)).value;
      ToolingDirectoryOf(path).value in result <==> Reaches(root, d) && TRASH !in d
  }

  lemma AnswerStringIsFoundExactlyWhen(root: Listing, path: string)
    requires FileSystem(root)
    ensures Agrees(root, SlashedAll(Found(root, [])), path)
  {
    if ToolingDirectoryOf(path).Some? {
      var d, found := ToolingOf(PartsOf(path)).value, Found(root, []);
      AnswerIsFoundExactlyWhen(root, PartsOf(path));
      PartsAreNames(path);
      if d in found {
        var i :| 0 <= i < |found| && found[i] == d;
        assert SlashedAll(found)[i] == Slashed(d);
      }
      if Slashed(d) in SlashedAll(found) {
        var i :| 0 <= i < |found| && SlashedAll(found)[i] == Slashed(d);
        FoundStandsAlone(root, found[i]);
        ReachedIsNamed(root, found[i]);
        SlashedOnce(found[i], d);
      }
    }
  }

  predicate WithoutBackslashes(listing: Listing) {
    listing.Entry? ==>
      && '\\' !in listing.name && WithoutBackslashes(listing.rest)
      && (listing.node.Directory? ==> WithoutBackslashes(listing.node.listing))
  }

  lemma {:induction false} ReachedHasNoBackslash(listing: Listing, place: Parts)
    requires WithoutBackslashes(listing) && Reaches(listing, place)
    ensures forall i :: 0 <= i < |place| ==> '\\' !in place[i]
    decreases listing
  {
    if Entered(listing.name, listing.node, place) {
      if |place| > 1 { ReachedHasNoBackslash(listing.node.listing, place[1..]); }
      forall i | 0 <= i < |place| ensures '\\' !in place[i] {
        if i > 0 { assert place[i] == place[1..][i - 1]; }
      }
    } else {
      ReachedHasNoBackslash(listing.rest, place);
    }
  }

  lemma ReadBack(root: Listing, place: Parts)
    requires FileSystem(root) && WithoutBackslashes(root) && Reaches(root, place)
    ensures PartsOf(Slashed(place)) == place
  {
    ReachedIsNamed(root, place);
    ReachedHasNoBackslash(root, place);
    NoBackslashIn(place);
    assert ForwardSlashes(Slashed(place)) == Slashed(place);
    SplitJoin(place, '/');
    AllKept(place);
  }

  /** A directory outside every trash whose path the watcher answers with this string. */
  predicate AnsweredBy(root: Listing, place: Parts, answer: string) {
    Reaches(root, place) && TRASH !in place && ToolingDirectoryOf(Slashed(place)) == Some(answer)
  }

  /**
   * In a tree without backslashes the sweep finds the watcher's answers for all of its directories, and nothing else.
   */
  lemma SweepIsAllAnswers(root: Listing, answer: string)
    requires FileSystem(root) && WithoutBackslashes(root)
    ensures answer in SlashedAll(Found(root, [])) <==> exists place :: AnsweredBy(root, place, answer)
  {
    var found := Found(root, []);
    if answer in SlashedAll(found) {
      var i :| 0 <= i < |found| && SlashedAll(found)[i] == answer;
      FoundStandsAlone(root, found[i]);
      FoundExactly(root, [], found[i]);
      assert [] + found[i] == found[i];
      FoundIsBelow(root, [], found[i]);
      ReadBack(root, found[i]);
      assert AnsweredBy(root, found[i], answer);
    }
    if place :| AnsweredBy(root, place, answer) {
      ReadBack(root, place);
      SweepHasEveryAnswer(root, place);
      var j :| 0 <= j < |found| && found[j] == ToolingOf(place).value;
      assert SlashedAll(found)[j] == answer;
    }
  }

  // ---------------------------------------------------------------- the sweep

  function SlashedAll(places: seq<Parts>): seq<string> {
    seq(|places|, i requires 0 <= i < |places| => Slashed(places[i]))
  }

  predicate Named(listing: Listing) {
    listing.Entry? ==>
      listing.name != "" && Named(listing.rest) && (listing.node.Directory? ==> Named(listing.node.listing))
  }

  lemma {:induction false} SlashedMore(parts: Parts, name: string)
    ensures Slashed(parts + [name]) == if parts == [] then name else Slashed(parts) + "/" + name
  {
    if parts == [] {
      assert parts + [name] == [name];
    } else {
      SlashedMore(parts[1..], name);
      assert (parts + [name])[1..] == parts[1..] + [name];
      if |parts| > 1 {
        assert Slashed(parts) + "/" + name == parts[0] + "/" + (Slashed(parts[1..]) + "/" + name);
      }
    }
  }

  lemma SlashedAllMore(a: seq<Parts>, b: seq<Parts>)
    ensures SlashedAll(a + b) == SlashedAll(a) + SlashedAll(b)
  {}

  /** How far a walk is: all counted and found so far, or stopped at the limit with a part of it found. */
  ghost predicate Along(limit: nat, visited: nat, found: seq<string>, total: nat, all: seq<string>, left: nat,
                        toFind: seq<string>) {
    if visited <= limit then visited + left == total && found + toFind == all
    else total > limit && found <= all
  }

  class ToolingSweep {
    const limit: nat
    var found: seq<string>
    var visited: nat

    constructor (limit: nat)
      ensures this.limit == limit && found == [] && visited == 0
    {
      this.limit, found, visited := limit, [], 0;
    }

    /** Below the limit the walk counts every entry and finds everything; beyond it, a part from the front. */
    method Walk(directory: Node, prefix: string, ghost parts: Parts)
      requires Named(Children(directory)) && prefix == Slashed(parts) && (prefix == "" <==> parts == [])
      modifies this
      ensures old(visited) > limit ==> visited == old(visited) && found == old(found)
      ensures old(visited) <= limit ==>
        Along(limit, visited, found, old(visited) + Visits(Children(directory)),
              old(found) + SlashedAll(Found(Children(directory), parts)), 0, [])
      decreases directory, 0
    {
      if visited > limit { return; }
      if directory.File? || !directory.readable { return; }
      ghost var total, all := visited + Visits(directory.listing), found + SlashedAll(Found(directory.listing, parts));
      var rest := directory.listing;
      while rest.Entry?
        invariant directory decreases to rest
        invariant Named(rest)
        invariant Along(limit, visited, found, total, all, Visits(rest), SlashedAll(Found(rest, parts)))
        decreases rest
      {
        visited := visited + 1;
        if visited > limit { return; }
        ghost var here := SlashedAll(FoundHere(rest.name, rest.node, parts));
        FoundSplit(rest, parts);
        SlashedAllMore(FoundHere(rest.name, rest.node, parts), Found(rest.rest, parts));
        ghost var before, counted := found, visited;
        Look(rest.name, rest.node, prefix, parts);
        StillAlong(limit, counted, before, visited, found, rest, here, parts, total, all);
        rest := rest.rest;
      }
    }

    /** What the loop does with one entry. */
    method Look(name: string, node: Node, prefix: string, ghost parts: Parts)
      requires visited <= limit && name != "" && (node.Directory? ==> Named(node.listing))
      requires prefix == Slashed(parts) && (prefix == "" <==> parts == [])
      modifies this
      ensures Along(limit, visited, found, old(visited) + (if Walked(name, node) then Visits(node.listing) else 0),
                    old(found) + SlashedAll(FoundHere(name, node, parts)), 0, [])
      decreases node, 1
    {
      if node.File? || name == TRASH { return; }
      var relative := if prefix != "" then prefix + "/" + name else name;
      SlashedMore(parts, name);
      if name == GIT {
        if HasCache(Children(node)) {
          found := found + [relative + "/" + REPOSITORY_CACHE_DIRECTORY];
          SlashedMore(parts + [GIT], REPOSITORY_CACHE_DIRECTORY);
          assert parts + [GIT] + [REPOSITORY_CACHE_DIRECTORY] == parts + [GIT, REPOSITORY_CACHE_DIRECTORY];
        }
        return;
      }
      if IsToolingDirectory(name) {
        found := found + [relative];
        return;
      }
      Walk(node, relative, parts + [name]);
    }
  }

  lemma StillAlong(limit: nat, counted: nat, before: seq<string>, visited: nat, found: seq<string>, rest: Listing,
                   here: seq<string>, parts: Parts, total: nat, all: seq<string>)
    requires rest.Entry? && counted <= limit
    requires counted - 1 + Visits(rest) == total && before + (here + SlashedAll(Found(rest.rest, parts))) == all
    requires Along(limit, visited, found,
                   counted + (if Walked(rest.name, rest.node) then Visits(rest.node.listing) else 0),
                   before + here, 0, [])
    ensures Along(limit, visited, found, total, all, Visits(rest.rest), SlashedAll(Found(rest.rest, parts)))
  {
    assert all == (before + here) + SlashedAll(Found(rest.rest, parts));
  }

  /** The whole sweep. A directory's names are distinct, so what is found has no repetitions and sorting lists it. */
  method FindToolingDirectories(root: Node, limit: nat) returns (result: seq<string>)
    requires Named(Children(root))
    ensures Ascending(result) && forall d :: d in result ==> d in SlashedAll(Found(Children(root), []))
    ensures Visits(Children(root)) <= limit ==> Enumerates(result, set d | d in SlashedAll(Found(Children(root), [])))
    ensures Visits(Children(root)) <= limit && FileSystem(Children(root)) ==>
      forall path :: Agrees(Children(root), result, path)
  {
    var sweep := new ToolingSweep(limit);
    sweep.Walk(root, "", []);
    result := Sorted(set d | d in sweep.found);
    assert [] + SlashedAll(Found(Children(root), [])) == SlashedAll(Found(Children(root), []));
    if Visits(Children(root)) <= limit && FileSystem(Children(root)) {
      forall path ensures Agrees(Children(root), result, path) { AnswerStringIsFoundExactlyWhen(Children(root), path); }
    }
  }
}
