/**
 * src/fleet-convergence.js, src/lan-fleet.js:152-301, src/machine-index.js:308-338: two machines decide, each
 * by itself, whose index secret the fleet keeps; one hands it over and the other checks again and adopts.
 */
module Fleet {
  import opened Basics
  import opened Strings

  /**
   * What a machine states about its index. An empty string is a field it does not state; secrets and index
   * ids stand for their fingerprints. `setAt` is the parsed minting time, if it parses.
   */
  datatype Facts = Facts(indexId: string, secret: string, setAt: Option<int>, paired: bool, entries: nat)

  datatype Verdict = Local | Remote

  function Time(f: Facts): int {
    if f.setAt.Some? then f.setAt.value else 0
  }

  function Preferred(local: Facts, remote: Facts): Verdict {
    if remote.indexId == "" || remote.secret == "" then Local
    else if local.indexId == "" || local.secret == "" then Remote
    else if local.indexId != remote.indexId then if local.entries > 0 then Local else Remote
    else if local.secret == remote.secret then Local
    else if local.paired != remote.paired then if local.paired then Local else Remote
    else if Time(local) != Time(remote) then if Time(local) > Time(remote) then Local else Remote
    else if Before(remote.secret, local.secret) then Local else Remote
  }

  predicate ShouldOffer(local: Facts, remote: Facts) {
    && remote.secret != "" && local.secret != remote.secret
    && Preferred(local, remote) == Local
    && (local.indexId == remote.indexId || remote.entries == 0)
  }

  /** What travels in a handover: no pairing state and no repository count. */
  datatype Capability = Capability(indexId: string, secret: string, setAt: Option<int>)

  function Handover(f: Facts): Capability {
    Capability(f.indexId, f.secret, f.setAt)
  }

  /** The facts the receiver reads into a handover. */
  function Claimed(c: Capability): Facts {
    Facts(c.indexId, c.secret, c.setAt, true, 0)
  }

  predicate Accepts(mine: Facts, c: Capability) {
    mine.secret != c.secret && c.secret != "" && Preferred(mine, Claimed(c)) == Remote
  }

  /** What adopting makes of a machine; None is the refusal to leave a different index with repositories. */
  function Adopted(mine: Facts, c: Capability, now: int): Option<Facts> {
    if mine.entries > 0 && mine.indexId != c.indexId then None
    else Some(Facts(c.indexId, c.secret, Some(if c.setAt.Some? then c.setAt.value else now), false, mine.entries))
  }

  predicate Stated(f: Facts) {
    f.indexId != "" && f.secret != ""
  }

  // ---------------------------------------------------------------- the two decisions mirror each other

  /** On one index with different secrets exactly one of two machines offers. */
  lemma ExactlyOneOffers(a: Facts, b: Facts)
    requires Stated(a) && Stated(b) && a.indexId == b.indexId && a.secret != b.secret
    ensures ShouldOffer(a, b) != ShouldOffer(b, a)
  {
    BeforeTotal(a.secret, b.secret);
  }

  /**
   * On different indexes with different secrets a machine offers exactly when it has repositories and the other has
   * none.
   */
  lemma OfferAcrossIndexes(a: Facts, b: Facts)
    requires Stated(a) && Stated(b) && a.indexId != b.indexId && a.secret != b.secret
    ensures ShouldOffer(a, b) <==> a.entries > 0 && b.entries == 0
  {}

  /** Two machines offer each other their index only when neither names one. */
  lemma MutualOffersExactlyWhenUnnamed(a: Facts, b: Facts)
    ensures ShouldOffer(a, b) && ShouldOffer(b, a) <==>
            a.indexId == "" && b.indexId == "" && a.secret != "" && b.secret != "" && a.secret != b.secret
  {
    BeforeTotal(a.secret, b.secret);
  }

  /** A handover decided on the receiver's current facts passes its check, and the adoption goes through. */
  lemma OfferIsAccepted(sender: Facts, receiver: Facts, now: int)
    requires Stated(sender) && Stated(receiver) && ShouldOffer(sender, receiver)
    ensures Accepts(receiver, Handover(sender))
    ensures Adopted(receiver, Handover(sender), now).Some?
  {
    BeforeTotal(sender.secret, receiver.secret);
  }

  /** The order on the secrets of one index: minting time, then fingerprint. */
  predicate Greater(a: Facts, b: Facts) {
    Time(a) > Time(b) || (Time(a) == Time(b) && Before(b.secret, a.secret))
  }

  /** A handover of an older secret of the same index is refused exactly by a machine a browser has paired with. */
  lemma StaleHandoverAcceptedExactlyWhenUnpaired(mine: Facts, c: Capability)
    requires Stated(mine) && c.indexId == mine.indexId && c.secret != "" && c.secret != mine.secret
    requires Greater(mine, Claimed(c))
    ensures Accepts(mine, c) <==> !mine.paired
  {
    BeforeTotal(mine.secret, c.secret);
  }

  /** Across indexes, whatever its age, a handover is accepted exactly by a machine that has no repositories. */
  lemma OtherIndexHandoverAcceptedExactlyWhenEmpty(mine: Facts, c: Capability, now: int)
    requires Stated(mine) && c.indexId != "" && c.indexId != mine.indexId && c.secret != "" && c.secret != mine.secret
    ensures Accepts(mine, c) <==> mine.entries == 0
    ensures Accepts(mine, c) ==> Adopted(mine, c, now).Some? && Adopted(mine, c, now).value.indexId == c.indexId
  {}

  /** So, for any handover whatsoever: */
  lemma HandoverAcceptedExactlyWhen(mine: Facts, c: Capability)
    requires Stated(mine)
    ensures Accepts(mine, c) <==>
              && c.indexId != "" && c.secret != "" && c.secret != mine.secret
              && if c.indexId == mine.indexId then !mine.paired || Greater(Claimed(c), mine) else mine.entries == 0
  {
    BeforeTotal(mine.secret, c.secret);
  }

  // ---------------------------------------------------------------- runs of handovers

  type Members = map<nat, Facts>

  predicate CanHand(fleet: Members, a: nat, b: nat) {
    a in fleet && b in fleet && ShouldOffer(fleet[a], fleet[b])
  }

  /** a hands its index to b on b's current facts, and b adopts it. */
  function Handed(fleet: Members, a: nat, b: nat): Members
    requires CanHand(fleet, a, b)
  {
    var adopted := Adopted(fleet[b], Handover(fleet[a]), 0);
    if adopted.Some? then fleet[b := adopted.value] else fleet
  }

  datatype Pair = Pair(from: nat, to: nat)

  predicate IsRun(fleet: Members, run: seq<Pair>)
    decreases |run|
  {
    run == [] || (CanHand(fleet, run[0].from, run[0].to) && IsRun(Handed(fleet, run[0].from, run[0].to), run[1..]))
  }

  function After(fleet: Members, run: seq<Pair>): Members
    requires IsRun(fleet, run)
    decreases |run|
  {
    if run == [] then fleet else After(Handed(fleet, run[0].from, run[0].to), run[1..])
  }

  /** One index, every secret with its time stated, no browser paired anywhere. */
  predicate Unpaired(fleet: Members, indexId: string) {
    indexId != "" && forall i :: i in fleet ==>
      fleet[i].indexId == indexId && fleet[i].secret != "" && fleet[i].setAt.Some? && !fleet[i].paired
  }

  datatype Rank = Rank(time: int, secret: string)

  function RankOf(f: Facts): Rank {
    Rank(Time(f), f.secret)
  }

  predicate Above(r: Rank, s: Rank) {
    r.time > s.time || (r.time == s.time && Before(s.secret, r.secret))
  }

  lemma AboveTotal(r: Rank, s: Rank)
    ensures r == s || Above(r, s) || Above(s, r)
    ensures !(Above(r, s) && Above(s, r)) && !Above(r, r)
  {
    BeforeTotal(r.secret, s.secret);
  }

  lemma AboveTransitive(r: Rank, s: Rank, t: Rank)
    requires Above(r, s) && Above(s, t)
    ensures Above(r, t)
  {
    if r.time == t.time { BeforeTransitive(t.secret, s.secret, r.secret); }
  }

  function Ranks(fleet: Members): set<Rank> {
    set i | i in fleet :: RankOf(fleet[i])
  }

  /** In such a fleet a machine offers to another of a different secret exactly when its own ranks above. */
  lemma OffersDownward(fleet: Members, indexId: string, a: nat, b: nat)
    requires Unpaired(fleet, indexId) && a in fleet && b in fleet
    ensures CanHand(fleet, a, b) <==> fleet[a].secret != fleet[b].secret && Above(RankOf(fleet[a]), RankOf(fleet[b]))
  {
    BeforeTotal(fleet[a].secret, fleet[b].secret);
  }

  lemma HandedIs(fleet: Members, indexId: string, a: nat, b: nat)
    requires Unpaired(fleet, indexId) && CanHand(fleet, a, b)
    ensures Handed(fleet, a, b) == fleet[b := Facts(indexId, fleet[a].secret, fleet[a].setAt, false, fleet[b].entries)]
  {}

  lemma HandedKeeps(fleet: Members, indexId: string, a: nat, b: nat)
    requires Unpaired(fleet, indexId) && CanHand(fleet, a, b)
    ensures Unpaired(Handed(fleet, a, b), indexId)
    ensures Handed(fleet, a, b).Keys == fleet.Keys && RankOf(Handed(fleet, a, b)[b]) == RankOf(fleet[a])
    ensures forall i :: i in fleet && i != b ==> Handed(fleet, a, b)[i] == fleet[i]
    ensures Ranks(Handed(fleet, a, b)) <= Ranks(fleet)
  {
    HandedIs(fleet, indexId, a, b);
    RanksAfter(fleet, Handed(fleet, a, b), a, b);
  }

  lemma RanksAfter(fleet: Members, next: Members, a: nat, b: nat)
    requires a in fleet && b in fleet && next.Keys == fleet.Keys && RankOf(next[b]) == RankOf(fleet[a])
    requires forall i :: i in fleet && i != b ==> next[i] == fleet[i]
    ensures Ranks(next) <= Ranks(fleet)
  {
    forall i | i in next ensures RankOf(next[i]) in Ranks(fleet) {
      if i == b { assert RankOf(fleet[a]) in Ranks(fleet); } else { assert RankOf(fleet[i]) in Ranks(fleet); }
    }
  }

  // ---------------------------------------------------------------- every run ends

  function HigherThan(all: set<Rank>, r: Rank): set<Rank> {
    set s | s in all && Above(s, r)
  }

  /** Over the machines up to n: how many of the ranks around are above each one's own. */
  function Distance(fleet: Members, all: set<Rank>, n: nat): nat {
    if n == 0 then 0
    else Distance(fleet, all, n - 1) + if n - 1 in fleet then |HigherThan(all, RankOf(fleet[n - 1]))| else 0
  }

  lemma FewerHigher(all: set<Rank>, low: Rank, high: Rank)
    requires high in all && Above(high, low)
    ensures |HigherThan(all, high)| < |HigherThan(all, low)|
  {
    var h, l := HigherThan(all, high), HigherThan(all, low);
    forall s | s in h ensures s in l { AboveTransitive(s, high, low); }
    AboveTotal(high, high);
    assert high in l && high !in h;
    Smaller(h, l);
  }

  lemma Smaller<T>(a: set<T>, b: set<T>)
    requires a < b
    ensures |a| < |b|
  {
    assert b == a + (b - a);
  }

  lemma {:induction false} HandedShrinks(fleet: Members, next: Members, all: set<Rank>, b: nat, n: nat)
    requires b in fleet && next.Keys == fleet.Keys && forall i :: i in fleet && i != b ==> next[i] == fleet[i]
    requires RankOf(next[b]) in all && Above(RankOf(next[b]), RankOf(fleet[b]))
    ensures if b < n then Distance(next, all, n) < Distance(fleet, all, n)
            else Distance(next, all, n) == Distance(fleet, all, n)
  {
    if n > 0 {
      HandedShrinks(fleet, next, all, b, n - 1);
      if n - 1 == b { FewerHigher(all, RankOf(fleet[b]), RankOf(next[b])); }
    }
  }

  /** A run of handovers is never longer than the distance the fleet starts with. */
  lemma {:induction false} RunsEnd(fleet: Members, indexId: string, all: set<Rank>, n: nat, run: seq<Pair>)
    requires Unpaired(fleet, indexId) && IsRun(fleet, run) && Ranks(fleet) <= all && forall i :: i in fleet ==> i < n
    ensures |run| + Distance(After(fleet, run), all, n) <= Distance(fleet, all, n)
    ensures Unpaired(After(fleet, run), indexId) && After(fleet, run).Keys == fleet.Keys
    ensures Ranks(After(fleet, run)) <= Ranks(fleet)
    decreases |run|
  {
    if run != [] {
      var a, b := run[0].from, run[0].to;
      var next := Handed(fleet, a, b);
      HandedKeeps(fleet, indexId, a, b);
      OffersDownward(fleet, indexId, a, b);
      assert RankOf(fleet[a]) in Ranks(fleet);
      HandedShrinks(fleet, next, all, b, n);
      RunsEnd(next, indexId, all, n, run[1..]);
    }
  }

  // ---------------------------------------------------------------- and ends on the greatest secret

  predicate Greatest(fleet: Members, r: Rank) {
    r in Ranks(fleet) && forall s :: s in Ranks(fleet) ==> s == r || Above(r, s)
  }

  /** The machine whose secret ranks highest is never handed another, so its rank stays the greatest. */
  lemma {:induction false} GreatestStays(fleet: Members, indexId: string, run: seq<Pair>, r: Rank)
    requires Unpaired(fleet, indexId) && IsRun(fleet, run) && Greatest(fleet, r)
    ensures Greatest(After(fleet, run), r)
    decreases |run|
  {
    if run != [] {
      var a, b := run[0].from, run[0].to;
      HandedKeeps(fleet, indexId, a, b);
      OffersDownward(fleet, indexId, a, b);
      var i :| i in fleet && RankOf(fleet[i]) == r;
      assert RankOf(fleet[a]) in Ranks(fleet) && RankOf(fleet[b]) in Ranks(fleet);
      AboveTotal(RankOf(fleet[a]), r);
      AboveTotal(RankOf(fleet[b]), r);
      assert i != b;
      assert Handed(fleet, a, b)[i] == fleet[i];
      GreatestStays(Handed(fleet, a, b), indexId, run[1..], r);
    }
  }

  lemma {:induction false} GreatestExists(fleet: Members, keys: set<nat>) returns (r: Rank)
    requires keys != {} && keys <= fleet.Keys
    ensures exists i :: i in keys && RankOf(fleet[i]) == r
    ensures forall i :: i in keys ==> RankOf(fleet[i]) == r || Above(r, RankOf(fleet[i]))
  {
    var k :| k in keys;
    r := RankOf(fleet[k]);
    if keys != {k} {
      var s := GreatestExists(fleet, keys - {k});
      AboveTotal(r, s);
      if Above(s, r) {
        r := s;
      } else {
        forall i | i in keys ensures RankOf(fleet[i]) == r || Above(r, RankOf(fleet[i])) {
          if i != k && RankOf(fleet[i]) != s && r != s { AboveTransitive(r, s, RankOf(fleet[i])); }
        }
      }
    }
  }

  ghost predicate Quiet(fleet: Members) {
    forall a, b :: !CanHand(fleet, a, b)
  }

  predicate AllOn(fleet: Members, secret: string) {
    forall i :: i in fleet ==> fleet[i].secret == secret
  }

  /** No handover is left exactly when every machine holds the greatest secret. */
  lemma QuietExactlyWhenConverged(fleet: Members, indexId: string, r: Rank)
    requires Unpaired(fleet, indexId) && Greatest(fleet, r)
    ensures Quiet(fleet) <==> AllOn(fleet, r.secret)
  {
    var i :| i in fleet && RankOf(fleet[i]) == r;
    if Quiet(fleet) {
      forall j | j in fleet ensures fleet[j].secret == r.secret {
        if fleet[j].secret != r.secret { ExactlyOneOffers(fleet[i], fleet[j]); }
        assert !CanHand(fleet, i, j) && !CanHand(fleet, j, i);
      }
    }
  }

  /** Every run of handovers is finite, and a fleet in which none is left is on its greatest secret. */
  lemma FleetConverges(fleet: Members, indexId: string, n: nat, run: seq<Pair>) returns (r: Rank)
    requires Unpaired(fleet, indexId) && fleet.Keys != {} && (forall i :: i in fleet ==> i < n) && IsRun(fleet, run)
    ensures Greatest(fleet, r) && Greatest(After(fleet, run), r)
    ensures |run| <= Distance(fleet, Ranks(fleet), n)
    ensures Quiet(After(fleet, run)) <==> AllOn(After(fleet, run), r.secret)
  {
    r := GreatestExists(fleet, fleet.Keys);
    RunsEnd(fleet, indexId, Ranks(fleet), n, run);
    GreatestStays(fleet, indexId, run, r);
    QuietExactlyWhenConverged(After(fleet, run), indexId, r);
  }

  // ---------------------------------------------------------------- where it does not hold

  /** A browser has paired with machine 0; machine 2 holds a newer secret than it, and machine 1 that of machine 2. */
  function MixedFleet(): Members {
    map[0 := Facts("i", "a", Some(1), true, 0), 1 := Facts("i", "c", Some(2), false, 0),
        2 := Facts("i", "c", Some(2), false, 0)]
  }

  /** Adoption forgets the pairing, so a mixed fleet can hand one machine back and forth. */
  lemma MixedFleetCycles()
    ensures var run := [Pair(0, 1), Pair(2, 1)];
            IsRun(MixedFleet(), run) && After(MixedFleet(), run) == MixedFleet()
  {
    var fleet, run := MixedFleet(), [Pair(0, 1), Pair(2, 1)];
    var once := Handed(fleet, 0, 1);
    assert once == fleet[1 := Facts("i", "a", Some(1), false, 0)];
    assert CanHand(once, 2, 1);
    assert Handed(once, 2, 1) == fleet;
    assert run[1..] == [Pair(2, 1)] && run[1..][1..] == [];
    assert IsRun(fleet, run[1..][1..]) && After(fleet, run[1..][1..]) == fleet;
    assert IsRun(once, run[1..]) && After(once, run[1..]) == fleet;
  }

  /** Two offers made to one machine at once: the lesser secret, if it arrives second, replaces the greater. */
  lemma LateOfferReplacesGreater(fleet: Members, indexId: string, a: nat, b: nat, c: nat)
    requires Unpaired(fleet, indexId) && CanHand(fleet, b, a) && CanHand(fleet, c, a)
    requires fleet[b].secret != fleet[c].secret && Above(RankOf(fleet[c]), RankOf(fleet[b]))
    ensures var adopted := Handed(fleet, c, a)[a];
            && adopted.secret == fleet[c].secret && Accepts(adopted, Handover(fleet[b]))
            && Adopted(adopted, Handover(fleet[b]), 0).value.secret == fleet[b].secret
  {
    HandedKeeps(fleet, indexId, c, a);
    StaleHandoverAcceptedExactlyWhenUnpaired(Handed(fleet, c, a)[a], Handover(fleet[b]));
  }

  // ---------------------------------------------------------------- the service

  type Key = string

  const OFFER_COOLDOWN_MS: int := 60_000
  const ANNOUNCEMENT_FRESH_MS: int := 5 * 60_000

  /** A machine pinned while both were in one readable index; older pins hold no sealing key. */
  datatype Pinned = Pinned(publicKey: Key, hasSealingKey: bool)
  /** `signed` is whether its statement verifies under the key pinned for the speaker. */
  datatype Announcement = Announcement(key: Key, facts: Facts, statedAt: Option<int>, signed: bool, seeking: bool)

  function StatedAt(v: Announcement): int {
    if v.statedAt.Some? then v.statedAt.value else 0
  }

  /** Everything a handover to a peer waits for. */
  predicate MayOffer(mine: Facts, peers: map<Key, Pinned>, offeredAt: map<Key, int>, v: Announcement, now: int) {
    && v.key in peers && v.signed
    && -ANNOUNCEMENT_FRESH_MS <= now - StatedAt(v) <= ANNOUNCEMENT_FRESH_MS
    && ShouldOffer(mine, v.facts)
    && now - (if peers[v.key].publicKey in offeredAt then offeredAt[peers[v.key].publicKey] else 0) >= OFFER_COOLDOWN_MS
    && peers[v.key].hasSealingKey
  }

  /** An announcement of another machine that a handover answers. */
  predicate Answers(self: Key, mine: Facts, peers: map<Key, Pinned>, offeredAt: map<Key, int>, v: Announcement,
                    now: int) {
    v.key != "" && v.key != self && MayOffer(mine, peers, offeredAt, v, now)
  }

  function OfferedAfter(self: Key, mine: Facts, peers: map<Key, Pinned>, offeredAt: map<Key, int>, v: Announcement,
                        now: int): map<Key, int> {
    if Answers(self, mine, peers, offeredAt, v, now) then offeredAt[peers[v.key].publicKey := now] else offeredAt
  }

  class LanFleet {
    const self: Key
    const peers: map<Key, Pinned>
    var index: Facts
    var offeredAt: map<Key, int>
    var unpinnedSeen: set<Key>

    constructor (self: Key, peers: map<Key, Pinned>, index: Facts)
      ensures this.self == self && this.peers == peers && this.index == index && offeredAt == map[]
      ensures unpinnedSeen == {}
    {
      this.self, this.peers, this.index, offeredAt, unpinnedSeen := self, peers, index, map[], {};
    }

    /** An announcement on the LAN room: at most a handover to a pinned machine, once per cooldown, comes of it. */
    method Heard(v: Announcement, now: int) returns (reported: bool, offer: Option<Capability>)
      modifies this`offeredAt, this`unpinnedSeen
      ensures offer ==
                if Answers(self, index, peers, old(offeredAt), v, now) then Some(Handover(index)) else None
      ensures offeredAt == OfferedAfter(self, index, peers, old(offeredAt), v, now)
      ensures reported <==> v.seeking && v.key != "" && v.key != self && v.key !in peers
      ensures unpinnedSeen ==
                if v.key != "" && v.key != self && v.key !in peers
                then old(unpinnedSeen) + {v.key} else old(unpinnedSeen)
    {
      reported, offer := false, None;
      if v.key == "" || v.key == self { return; }
      if v.key !in peers {
        reported := v.seeking;
        if v.key !in unpinnedSeen { unpinnedSeen := unpinnedSeen + {v.key}; }
        return;
      }
      var peer := peers[v.key];
      var age := now - StatedAt(v);
      if !(age >= -ANNOUNCEMENT_FRESH_MS && age <= ANNOUNCEMENT_FRESH_MS) || !v.signed { return; }
      if !ShouldOffer(index, v.facts) { return; }
      var last := if peer.publicKey in offeredAt then offeredAt[peer.publicKey] else 0;
      if now - last < OFFER_COOLDOWN_MS || !peer.hasSealingKey { return; }
      offer := Some(Handover(index));
      offeredAt := offeredAt[peer.publicKey := now];
    }

    /** A handover sealed to this machine, `valid` if a pinned peer signed it for this recipient. */
    method Sealed(c: Capability, valid: bool, now: int) returns (adopted: bool)
      modifies this`index
      ensures adopted <==> valid && Accepts(old(index), c) && Adopted(old(index), c, now).Some?
      ensures index == if adopted then Adopted(old(index), c, now).value else old(index)
    {
      adopted := false;
      if c.secret == "" || !valid { return; }
      if index.secret == c.secret { return; }
      if Preferred(index, Claimed(c)) != Remote { return; }
      if index.entries > 0 && index.indexId != c.indexId { return; }
      index := index.(indexId := c.indexId, secret := c.secret);
      index := index.(setAt := Some(if c.setAt.Some? then c.setAt.value else now));
      index := index.(paired := false);
      adopted := true;
    }
  }
}
