/**
 * One file that its device lists as private or live from snapshot to snapshot (src/protocol.js:602-635), as a device
 * that starts with nothing follows it: runs that lose the file, refuse it, or destroy it.
 */
module Relisted {
  import opened Basics
  import opened Paths
  import opened Git
  import opened Workspace
  import opened Sync
  import opened LocalEdits
  import opened Quarantine
  import opened Outcome
  import opened Moves

  const ENV: Path := "env"

  /** How a snapshot lists the file. */
  datatype Listing = Private(next: Option<Bytes>) | Live(data: Bytes)

  function Lists(id: nat, listing: Listing): Snapshot {
    match listing
    case Private(next) => Snapshot(id, [], [], [PrivateFile(ENV, next)], [])
    case Live(data) => Snapshot(id, [], [], [], [LiveFile(ENV, Some(data), None)])
  }

  /** The file here, what was last taken from the overlay and from the private list, and the last snapshot. */
  datatype Spot = Spot(current: Option<Bytes>, live: Option<Option<Digest>>, private: Option<Option<Digest>>,
                       id: Option<nat>)

  ghost predicate At(l: Local, s: Spot) {
    && Uncommitted(l.repo, ENV) && ENV !in l.untracked
    && Get(l.repo.tree, ENV) == s.current && Get(BaselinesFor(l, "peer"), ENV) == s.live
    && Get(l.fileBaselines, ENV) == s.private && Get(l.imported, "peer") == s.id
  }

  function Next(s: Spot, id: nat, listing: Listing): Spot {
    var last := s.live == Some(DigestOf(s.current));
    match listing
    case Private(next) =>
      var left := if last then None else s.current;
      var taken := left == next || (if s.private.Some? then s.private.value == DigestOf(left) else left.None?);
      Spot(if taken then next else left, if last then None else s.live, Some(DigestOf(next)), Some(id))
    case Live(data) =>
      var taken := s.current.None? || s.current == Some(data) || last;
      Spot(if taken then Some(data) else s.current, Some(Some(Sha(data))), s.private, Some(id))
  }

  lemma NoRefs(l: Local, device: Device, m: Snapshot)
    requires m.heads == [] && m.tags == []
    ensures Imported(l, device, m, {}).imported == l.imported[device := m.id]
    ensures Imported(l, device, m, {}).untracked == l.untracked
  {}

  lemma PrivateNext(l: Local, s: Spot, id: nat, next: Option<Bytes>)
    requires At(l, s)
    ensures At(Imported(l, "peer", Lists(id, Private(next)), {}), Next(s, id, Private(next)))
  {
    var m, g := Lists(id, Private(next)), PrivateFile(ENV, next);
    ShortNameIsShared(ENV);
    assert m.files[0] == g;
    NoRefs(l, "peer", m);
    PrivateTakenExactlyWhen(l, "peer", m, {}, g);
    StaysUncommitted(l, "peer", m, {}, ENV);
    PrivateBaseline(l, "peer", m, g);
  }

  lemma PrivateBaseline(l: Local, device: Device, m: Snapshot, g: PrivateFile)
    requires WellFormed(m) && Uncommitted(l.repo, g.path) && NotInHeads(m, g.path) && ListsPrivate(l, m, g)
    ensures Get(BaselinesFor(Imported(l, device, m, {}), device), g.path) ==
              if IsLastTaken(l, device, g.path) then None else Get(BaselinesFor(l, device), g.path)
  {
    NotOwnedFiles(m.live, {});
    UnownedBaseline(BaselinesFor(l, device), m.live, {}, g.path);
    assert g.path in PreparedTargets(l, device, m, {}) <==> g.path in BaselinesFor(l, device);
    CheckoutPasses(l, device, m, {}, g.path);
    RetractionOfUncommitted(l, device, m, {}, g.path);
    PrivateAtListed(l, device, m, {}, g);
    ImportAtPath(l, device, m, {}, g.path);
  }

  lemma LiveNext(l: Local, s: Spot, id: nat, data: Bytes)
    requires At(l, s)
    ensures At(Imported(l, "peer", Lists(id, Live(data)), {}), Next(s, id, Live(data)))
  {
    var m, f := Lists(id, Live(data)), LiveFile(ENV, Some(data), None);
    ShortNameIsShared(ENV);
    assert m.live[0] == f;
    NoRefs(l, "peer", m);
    LiveTakenExactlyWhen(l, "peer", m, {}, f);
    StaysUncommitted(l, "peer", m, {}, ENV);
    assert Imported(l, "peer", m, {}).fileBaselines == l.fileBaselines;
  }

  // ---------------------------------------------------------------- runs

  function Receiving(listings: seq<Listing>, first: nat): seq<Event> {
    if listings == [] then []
    else [Receive("peer", Lists(first, listings[0]), {})] + Receiving(listings[1..], first + 1)
  }

  function Through(s: Spot, listings: seq<Listing>, first: nat): Spot
    decreases |listings|
  {
    if listings == [] then s else Through(Next(s, first, listings[0]), listings[1..], first + 1)
  }

  lemma NextAt(l: Local, s: Spot, id: nat, listing: Listing)
    requires At(l, s) && s.id != Some(id)
    ensures At(Step(l, Receive("peer", Lists(id, listing), {})), Next(s, id, listing))
  {
    match listing
    case Private(next) => PrivateNext(l, s, id, next);
    case Live(data) => LiveNext(l, s, id, data);
  }

  lemma FollowOne(l: Local, e: Event, later: seq<Event>)
    ensures Quarantine.Follow(l, [e] + later) == Quarantine.Follow(Step(l, e), later)
  {
    assert ([e] + later)[1..] == later;
  }

  /** Where any run of listings leaves the file. */
  lemma {:induction false} RunAt(l: Local, s: Spot, listings: seq<Listing>, first: nat)
    requires At(l, s) && (s.id.Some? ==> s.id.value < first)
    ensures At(Quarantine.Follow(l, Receiving(listings, first)), Through(s, listings, first))
    decreases |listings|
  {
    if listings != [] {
      var e := Receive("peer", Lists(first, listings[0]), {});
      NextAt(l, s, first, listings[0]);
      FollowOne(l, e, Receiving(listings[1..], first + 1));
      RunAt(Step(l, e), Next(s, first, listings[0]), listings[1..], first + 1);
    }
  }

  /** While it is listed as private only, and nothing was taken from the overlay, nothing enters the trash. */
  lemma {:induction false} NoTrash(l: Local, listings: seq<Listing>, first: nat)
    requires forall i :: 0 <= i < |listings| ==> listings[i].Private?
    requires BaselinesFor(l, "peer") == map[]
    ensures Quarantine.Follow(l, Receiving(listings, first)).trash == l.trash
    decreases |listings|
  {
    if listings != [] {
      var e := Receive("peer", Lists(first, listings[0]), {});
      PrivateAddsNoTrash(l, Lists(first, listings[0]));
      FollowOne(l, e, Receiving(listings[1..], first + 1));
      NoTrash(Step(l, e), listings[1..], first + 1);
    }
  }

  lemma PrivateAddsNoTrash(l: Local, m: Snapshot)
    requires m.live == [] && BaselinesFor(l, "peer") == map[]
    ensures var l' := Accepted(l, "peer", m, {}); l'.trash == l.trash && BaselinesFor(l', "peer") == map[]
  {
    NothingToRetract(LivePaths([]));
    assert PreparedTargets(l, "peer", m, {}) == [] by {
      var none: Baselines := map[];
      assert PreparedFrom(l, "peer", m, {}).baselines == none;
      assert (set p | p in none && p !in LivePaths(NotOwned([], {})) && p !in {}) == {};
    }
  }

  /** A repository without commits or files, nothing imported. */
  const EMPTY_DEVICE: Local :=
    Local(Repo(map[], map[], map[], OnBranch("main"), false, map[], map[], {}),
          [], map[], map[], {}, map[], map[], map[], map[])
  const NOWHERE: Spot := Spot(None, None, None, None)

  lemma FromNothing(listings: seq<Listing>)
    ensures At(Quarantine.Follow(EMPTY_DEVICE, Receiving(listings, 1)), Through(NOWHERE, listings, 1))
  {
    RunAt(EMPTY_DEVICE, NOWHERE, listings, 1);
  }

  lemma ThroughMore(s: Spot, listings: seq<Listing>, first: nat)
    requires listings != []
    ensures Through(s, listings, first) == Through(Next(s, first, listings[0]), listings[1..], first + 1)
  {}

  // ---------------------------------------------------------------- the inputs

  /** Moved to the overlay with an edit: refused, though the file here is the one the peer had listed. */
  lemma EditedMoveConflicts(listings: seq<Listing>)
    requires listings == [Private(Some([1])), Live([2])]
    ensures Get(Quarantine.Follow(EMPTY_DEVICE, Receiving(listings, 1)).repo.tree, ENV) == Some([1])
  {
    FromNothing(listings);
    ThroughMore(NOWHERE, listings, 1);
    ThroughMore(Next(NOWHERE, 1, listings[0]), listings[1..], 2);
  }

  /** Moved to the overlay, edited there, and moved back: the file was followed, and is gone for good. */
  lemma MovedBackIsLost(listings: seq<Listing>, first: seq<Listing>)
    requires first == [Private(Some([1])), Live([1]), Live([2])] && listings == first + [Private(Some([2]))]
    ensures Get(Quarantine.Follow(EMPTY_DEVICE, Receiving(first, 1)).repo.tree, ENV) == Some([2])
    ensures Absent(Quarantine.Follow(EMPTY_DEVICE, Receiving(listings, 1)), ENV)
  {
    FromNothing(listings);
    FromNothing(first);
    var s := Spot(Some([2]), Some(Some(Sha([2]))), Some(Some(Sha([1]))), Some(3));
    MovedThere(first, s);
    ThroughLast(NOWHERE, first, Private(Some([2])), 1);
  }

  lemma MovedThere(listings: seq<Listing>, s: Spot)
    requires listings == [Private(Some([1])), Live([1]), Live([2])]
    requires s == Spot(Some([2]), Some(Some(Sha([2]))), Some(Some(Sha([1]))), Some(3))
    ensures Through(NOWHERE, listings, 1) == s
  {
    var s1 := Next(NOWHERE, 1, listings[0]);
    var s2 := Next(s1, 2, listings[1]);
    ThroughMore(NOWHERE, listings, 1);
    ThroughMore(s1, listings[1..], 2);
    ThroughMore(s2, listings[2..], 3);
  }

  lemma {:induction false} ThroughLast(s: Spot, listings: seq<Listing>, last: Listing, first: nat)
    ensures Through(s, listings + [last], first) == Next(Through(s, listings, first), first + |listings|, last)
    decreases |listings|
  {
    ThroughMore(s, listings + [last], first);
    if listings != [] {
      assert (listings + [last])[1..] == listings[1..] + [last];
      ThroughLast(Next(s, first, listings[0]), listings[1..], last, first + 1);
    }
  }

  /** Private, and deleted by its owner: the bytes are gone here as well. */
  lemma WithdrawnFileIsDestroyed(listings: seq<Listing>, first: seq<Listing>)
    requires first == [Private(Some([1]))] && listings == first + [Private(None)]
    ensures Get(Quarantine.Follow(EMPTY_DEVICE, Receiving(first, 1)).repo.tree, ENV) == Some([1])
    ensures var l := Quarantine.Follow(EMPTY_DEVICE, Receiving(listings, 1)); ENV !in l.repo.tree && l.trash == []
  {
    FromNothing(listings);
    FromNothing(first);
    NoTrash(EMPTY_DEVICE, listings, 1);
    ThroughMore(NOWHERE, first, 1);
    ThroughLast(NOWHERE, first, Private(None), 1);
  }
}
