/**
 * When a handover is made (src/fleet-convergence.js:36-74, src/lan-fleet.js:181-244): what the two machines' statements
 * must say, and, over everything a machine hears, how long since the last one to the same peer.
 */
module Handovers {
  import opened Strings
  import opened Fleet

  /**
   * On one index the paired machine hands over to the unpaired one, else the newer secret, else the greater; across
   * indexes a machine with repositories to one without. A machine that names no index takes any when it is empty.
   */
  lemma OfferDecidedExactlyWhen(local: Facts, remote: Facts)
    ensures ShouldOffer(local, remote) <==>
              && remote.secret != "" && local.secret != remote.secret
              && if remote.indexId == "" then local.indexId == "" || remote.entries == 0
                 else
                   && local.indexId != "" && local.secret != ""
                   && if local.indexId != remote.indexId then local.entries > 0 && remote.entries == 0
                      else if local.paired != remote.paired then local.paired
                      else if Time(local) != Time(remote) then Time(local) > Time(remote)
                      else Before(remote.secret, local.secret)
  {}

  /** One announcement heard, and this machine's own facts at the time. */
  datatype Hearing = Hearing(mine: Facts, v: Announcement, now: int)

  /** The times of the handovers remembered after the first k announcements. */
  function OfferedAt(self: Key, peers: map<Key, Pinned>, heard: seq<Hearing>, k: nat): map<Key, int>
    requires k <= |heard|
  {
    if k == 0 then map[]
    else
      var last := heard[k - 1];
      OfferedAfter(self, last.mine, peers, OfferedAt(self, peers, heard, k - 1), last.v, last.now)
  }

  /** The k-th announcement heard is answered by a handover. */
  predicate Offered(self: Key, peers: map<Key, Pinned>, heard: seq<Hearing>, k: nat)
    requires k < |heard|
  {
    Answers(self, heard[k].mine, peers, OfferedAt(self, peers, heard, k), heard[k].v, heard[k].now)
  }

  /** It was answered, to the machine with this key. */
  predicate OfferedTo(self: Key, peers: map<Key, Pinned>, heard: seq<Hearing>, k: nat, key: Key)
    requires k < |heard|
  {
    Offered(self, peers, heard, k) && heard[k].v.key in peers && peers[heard[k].v.key].publicKey == key
  }

  /** The last handover made to this key among the first k announcements heard. */
  ghost predicate LastOffer(self: Key, peers: map<Key, Pinned>, heard: seq<Hearing>, k: nat, key: Key, j: nat)
    requires k <= |heard|
  {
    && j < k && OfferedTo(self, peers, heard, j, key)
    && forall i :: j < i < k ==> !OfferedTo(self, peers, heard, i, key)
  }

  ghost predicate NeverOffered(self: Key, peers: map<Key, Pinned>, heard: seq<Hearing>, k: nat, key: Key)
    requires k <= |heard|
  {
    forall i :: 0 <= i < k ==> !OfferedTo(self, peers, heard, i, key)
  }

  /** A time is remembered for a key exactly when a handover was made to it. */
  lemma {:induction false} RemembersAny(self: Key, peers: map<Key, Pinned>, heard: seq<Hearing>, k: nat, key: Key)
    requires k <= |heard|
    ensures key in OfferedAt(self, peers, heard, k) <==> !NeverOffered(self, peers, heard, k, key)
  {
    if k > 0 {
      RemembersAny(self, peers, heard, k - 1, key);
      assert NeverOffered(self, peers, heard, k, key) <==>
             NeverOffered(self, peers, heard, k - 1, key) && !OfferedTo(self, peers, heard, k - 1, key);
    }
  }

  /** And it is the time of the last one. */
  lemma {:induction false} RemembersLast(self: Key, peers: map<Key, Pinned>, heard: seq<Hearing>, k: nat, key: Key,
                                         j: nat)
    requires k <= |heard| && LastOffer(self, peers, heard, k, key, j)
    ensures key in OfferedAt(self, peers, heard, k) && OfferedAt(self, peers, heard, k)[key] == heard[j].now
  {
    if j < k - 1 {
      assert !OfferedTo(self, peers, heard, k - 1, key);
      RemembersLast(self, peers, heard, k - 1, key, j);
    }
  }

  /** The last handover, if there was any, is some earlier announcement. */
  lemma {:induction false} LastOfferExists(self: Key, peers: map<Key, Pinned>, heard: seq<Hearing>, k: nat, key: Key)
    returns (j: nat)
    requires k <= |heard| && !NeverOffered(self, peers, heard, k, key)
    ensures LastOffer(self, peers, heard, k, key, j)
  {
    if OfferedTo(self, peers, heard, k - 1, key) {
      j := k - 1;
    } else {
      j := LastOfferExists(self, peers, heard, k - 1, key);
    }
  }

  /**
   * An announcement is answered by a handover exactly when another machine that is pinned here with a sealing key
   * signed it at most five minutes ago or ahead, the statements decide for this machine, and the last handover to that
   * key, if there was one, is at least a minute back.
   */
  lemma HandedOverExactlyWhen(self: Key, peers: map<Key, Pinned>, heard: seq<Hearing>, k: nat)
    requires k < |heard|
    ensures var (v, mine, now) := (heard[k].v, heard[k].mine, heard[k].now);
            Offered(self, peers, heard, k) <==>
              && v.key != "" && v.key != self && v.key in peers && peers[v.key].hasSealingKey && v.signed
              && (if v.statedAt.Some? then -300_000 <= now - v.statedAt.value <= 300_000
                  else -300_000 <= now <= 300_000)
              && ShouldOffer(mine, v.facts)
              && (NeverOffered(self, peers, heard, k, peers[v.key].publicKey) ==> now >= 60_000)
              && (forall j: nat :: LastOffer(self, peers, heard, k, peers[v.key].publicKey, j) ==>
                    now - heard[j].now >= 60_000)
  {
    var v := heard[k].v;
    if v.key in peers {
      var key := peers[v.key].publicKey;
      RemembersAny(self, peers, heard, k, key);
      if !NeverOffered(self, peers, heard, k, key) {
        var last := LastOfferExists(self, peers, heard, k, key);
      }
      forall j: nat | LastOffer(self, peers, heard, k, key, j)
        ensures key in OfferedAt(self, peers, heard, k) && OfferedAt(self, peers, heard, k)[key] == heard[j].now {
        RemembersLast(self, peers, heard, k, key, j);
      }
    }
  }
}
