/**
 * Runs of handovers in a fleet in which a browser has paired with some machines (src/fleet-convergence.js:48-62,
 * src/machine-index.js:325-334). Adoption forgets the pairing, so such a fleet need not settle: exactly which do.
 */
module PairedFleet {
  import opened Fleet

  /** One index, every minting time stated, and one time for each secret. */
  predicate OneIndex(fleet: Members, indexId: string) {
    && indexId != ""
    && (forall i :: i in fleet ==> fleet[i].indexId == indexId && fleet[i].secret != "" && fleet[i].setAt.Some?)
    && (forall i, j :: i in fleet && j in fleet && fleet[i].secret == fleet[j].secret ==>
        Time(fleet[i]) == Time(fleet[j]))
  }

  lemma HandsExactly(fleet: Members, indexId: string, a: nat, b: nat)
    requires OneIndex(fleet, indexId) && a in fleet && b in fleet
    ensures CanHand(fleet, a, b) <==>
              fleet[a].secret != fleet[b].secret
              && if fleet[a].paired != fleet[b].paired then fleet[a].paired
                 else Above(RankOf(fleet[a]), RankOf(fleet[b]))
  {
    AboveTotal(RankOf(fleet[a]), RankOf(fleet[b]));
  }

  lemma HandedOne(fleet: Members, indexId: string, a: nat, b: nat, next: Members)
    requires OneIndex(fleet, indexId) && CanHand(fleet, a, b) && next == Handed(fleet, a, b)
    ensures a != b && OneIndex(next, indexId)
    ensures next == fleet[b := Facts(indexId, fleet[a].secret, fleet[a].setAt, false, fleet[b].entries)]
    ensures RankOf(next[b]) == RankOf(fleet[a]) && Ranks(next) <= Ranks(fleet)
  {
    forall i | i in next ensures RankOf(next[i]) in Ranks(fleet) {
      assert RankOf(next[i]) == RankOf(fleet[if i == b then a else i]);
    }
  }

  // ---------------------------------------------------------------- fleets that do not settle

  /**
   * Two machines with different secrets that an unpaired third takes in turn: p's whenever it has another, u's back
   * from that.
   */
  predicate Alternates(fleet: Members, p: nat, t: nat, u: nat) {
    && p in fleet && t in fleet && u in fleet && p != t && t != u
    && fleet[p].paired && !fleet[t].paired && fleet[p].secret != fleet[u].secret
    && (fleet[u].paired || Above(RankOf(fleet[u]), RankOf(fleet[p])))
  }

  /** All three paired: the third is to be handed something first, and is unpaired then. */
  predicate Demotes(fleet: Members, p: nat, t: nat, u: nat, a: nat) {
    && p in fleet && t in fleet && u in fleet && p != t && t != u
    && fleet[p].paired && fleet[t].paired && fleet[u].paired && fleet[p].secret != fleet[u].secret
    && CanHand(fleet, a, t)
  }

  ghost predicate Restless(fleet: Members) {
    (exists p, t, u :: Alternates(fleet, p, t, u)) || (exists p, t, u, a :: Demotes(fleet, p, t, u, a))
  }

  lemma {:induction false} GoesOnForever(fleet: Members, indexId: string, p: nat, t: nat, u: nat, n: nat)
    returns (run: seq<Pair>)
    requires OneIndex(fleet, indexId) && Alternates(fleet, p, t, u)
    ensures IsRun(fleet, run) && |run| == n
  {
    run := [];
    if n > 0 {
      var s := if fleet[t].secret != fleet[p].secret then p else u;
      HandsExactly(fleet, indexId, s, t);
      var next := Handed(fleet, s, t);
      HandedOne(fleet, indexId, s, t, next);
      var rest := GoesOnForever(next, indexId, p, t, u, n - 1);
      run := [Pair(s, t)] + rest;
      assert run[1..] == rest;
    }
  }

  lemma RestlessRuns(fleet: Members, indexId: string, n: nat) returns (run: seq<Pair>)
    requires OneIndex(fleet, indexId) && Restless(fleet)
    ensures IsRun(fleet, run) && |run| == n + 1
  {
    if p, t, u :| Alternates(fleet, p, t, u) {
      run := GoesOnForever(fleet, indexId, p, t, u, n + 1);
    } else {
      var p, t, u, a :| Demotes(fleet, p, t, u, a);
      var next := Handed(fleet, a, t);
      HandedOne(fleet, indexId, a, t, next);
      var rest := GoesOnForever(next, indexId, p, t, u, n);
      run := [Pair(a, t)] + rest;
      assert run[1..] == rest;
    }
  }

  // ---------------------------------------------------------------- fleets that do: restlessness never arises

  lemma AlternatesBefore(fleet: Members, indexId: string, a: nat, b: nat, next: Members, p: nat, t: nat, u: nat)
    requires OneIndex(fleet, indexId) && CanHand(fleet, a, b) && next == Handed(fleet, a, b)
    requires Alternates(next, p, t, u)
    ensures Restless(fleet)
  {
    HandedOne(fleet, indexId, a, b, next);
    HandsExactly(fleet, indexId, a, b);
    if b == u {
      if a == t { assert Alternates(fleet, p, b, a); } else { assert Alternates(fleet, p, t, a); }
    } else if b == t && fleet[b].paired {
      if fleet[u].paired { assert Demotes(fleet, p, t, u, a); } else { assert Alternates(fleet, a, u, b); }
    } else {
      assert Alternates(fleet, p, t, u);
    }
  }

  lemma DemotesBefore(fleet: Members, indexId: string, a: nat, b: nat, next: Members, p: nat, t: nat, u: nat, c: nat)
    requires OneIndex(fleet, indexId) && CanHand(fleet, a, b) && next == Handed(fleet, a, b)
    requires Demotes(next, p, t, u, c)
    ensures Restless(fleet)
  {
    HandedOne(fleet, indexId, a, b, next);
    HandsExactly(next, indexId, c, t);
    assert CanHand(fleet, c, t) by { HandsExactly(fleet, indexId, c, t); }
    assert Demotes(fleet, p, t, u, c);
  }

  lemma CalmStays(fleet: Members, indexId: string, a: nat, b: nat, next: Members)
    requires OneIndex(fleet, indexId) && CanHand(fleet, a, b) && next == Handed(fleet, a, b) && !Restless(fleet)
    ensures !Restless(next)
  {
    if p, t, u :| Alternates(next, p, t, u) { AlternatesBefore(fleet, indexId, a, b, next, p, t, u); }
    if p, t, u, c :| Demotes(next, p, t, u, c) { DemotesBefore(fleet, indexId, a, b, next, p, t, u, c); }
  }

  // ---------------------------------------------------------------- and every run ends

  /** Browsers have paired with some machine, and with machines of this secret only. */
  ghost predicate Led(fleet: Members, secret: string) {
    (exists p :: p in fleet && fleet[p].paired) && forall i :: i in fleet && fleet[i].paired ==>
      fleet[i].secret == secret
  }

  /** How many machines below n hold another secret. */
  function Others(fleet: Members, secret: string, n: nat): (k: nat)
    ensures k <= n
  {
    if n == 0 then 0
    else Others(fleet, secret, n - 1) + if n - 1 in fleet && fleet[n - 1].secret != secret then 1 else 0
  }

  lemma {:induction false} OthersAfter(fleet: Members, next: Members, secret: string, b: nat, n: nat)
    requires b in fleet && next.Keys == fleet.Keys && forall i :: i in fleet && i != b ==> next[i] == fleet[i]
    ensures Others(next, secret, n) == Others(fleet, secret, n)
              + (if b < n && next[b].secret != secret then 1 else 0)
              - (if b < n && fleet[b].secret != secret then 1 else 0)
  {
    if n > 0 { OthersAfter(fleet, next, secret, b, n - 1); }
  }

  lemma {:induction false} DistanceBounded(fleet: Members, all: set<Rank>, n: nat)
    ensures Distance(fleet, all, n) <= n * |all|
  {
    if n > 0 {
      DistanceBounded(fleet, all, n - 1);
      if n - 1 in fleet { NotMore(HigherThan(all, RankOf(fleet[n - 1])), all); }
      assert n * |all| == (n - 1) * |all| + |all|;
    }
  }

  lemma NotMore<T>(a: set<T>, b: set<T>)
    requires a <= b
    ensures |a| <= |b|
  {
    assert b == a + (b - a);
  }

  /** A handover in a calm, led fleet gives the leading secret, or raises one rank among the others. */
  lemma LedHandover(fleet: Members, indexId: string, secret: string, a: nat, b: nat)
    requires OneIndex(fleet, indexId) && Led(fleet, secret) && !Restless(fleet) && CanHand(fleet, a, b)
    ensures !fleet[b].paired && fleet[b].secret != secret && Led(Handed(fleet, a, b), secret)
    ensures fleet[a].secret == secret || Above(RankOf(fleet[a]), RankOf(fleet[b]))
  {
    HandedOne(fleet, indexId, a, b, Handed(fleet, a, b));
    HandsExactly(fleet, indexId, a, b);
    var p :| p in fleet && fleet[p].paired;
    assert p != b;
    assert p in Handed(fleet, a, b) && Handed(fleet, a, b)[p].paired;
    assert !Alternates(fleet, p, b, a);
  }

  /** What is left of a run: machines to be given the leading secret, each worth more than any climb. */
  function Remaining(fleet: Members, secret: string, all: set<Rank>, n: nat): nat {
    Others(fleet, secret, n) * (n * |all| + 1) + Distance(fleet, all, n)
  }

  /** Fewer others outweigh any climb; with as many, a climb counts. */
  lemma LessRemains(k: nat, k': nat, d: nat, d': nat, unit: nat)
    requires (k' < k && d' < unit) || (k' == k && d' < d)
    ensures k' * unit + d' < k * unit + d
  {
    if k' < k {
      Product(k' + 1, k, unit);
      assert (k' + 1) * unit == k' * unit + unit;
    }
  }

  lemma RemainingShrinks(fleet: Members, indexId: string, secret: string, all: set<Rank>, n: nat, a: nat, b: nat)
    requires OneIndex(fleet, indexId) && Led(fleet, secret) && !Restless(fleet) && CanHand(fleet, a, b)
    requires Ranks(fleet) <= all && b < n
    ensures Remaining(Handed(fleet, a, b), secret, all, n) < Remaining(fleet, secret, all, n)
  {
    var next := Handed(fleet, a, b);
    HandedOne(fleet, indexId, a, b, next);
    LedHandover(fleet, indexId, secret, a, b);
    OthersAfter(fleet, next, secret, b, n);
    DistanceBounded(next, all, n);
    if fleet[a].secret != secret { ClimbShrinks(fleet, next, all, a, b, n); }
    LessRemains(Others(fleet, secret, n), Others(next, secret, n), Distance(fleet, all, n), Distance(next, all, n),
                n * |all| + 1);
  }

  lemma ClimbShrinks(fleet: Members, next: Members, all: set<Rank>, a: nat, b: nat, n: nat)
    requires a in fleet && b in fleet && b < n && next.Keys == fleet.Keys && Ranks(fleet) <= all
    requires forall i :: i in fleet && i != b ==> next[i] == fleet[i]
    requires RankOf(next[b]) == RankOf(fleet[a]) && Above(RankOf(fleet[a]), RankOf(fleet[b]))
    ensures Distance(next, all, n) < Distance(fleet, all, n)
  {
    assert RankOf(fleet[a]) in Ranks(fleet);
    HandedShrinks(fleet, next, all, b, n);
  }

  lemma {:induction false} LedRunsEnd(fleet: Members, indexId: string, secret: string, all: set<Rank>, n: nat,
                                      run: seq<Pair>)
    requires OneIndex(fleet, indexId) && Led(fleet, secret) && !Restless(fleet) && IsRun(fleet, run)
    requires Ranks(fleet) <= all && forall i :: i in fleet ==> i < n
    ensures |run| <= Remaining(fleet, secret, all, n)
    ensures Led(After(fleet, run), secret) && OneIndex(After(fleet, run), indexId)
    decreases |run|
  {
    if run != [] {
      var a, b := run[0].from, run[0].to;
      var next := Handed(fleet, a, b);
      HandedOne(fleet, indexId, a, b, next);
      LedHandover(fleet, indexId, secret, a, b);
      CalmStays(fleet, indexId, a, b, next);
      RemainingShrinks(fleet, indexId, secret, all, n, a, b);
      LedRunsEnd(next, indexId, secret, all, n, run[1..]);
    }
  }

  /**
   * Paired machines of two secrets and no restlessness: nobody is unpaired, and one handover leaves a single secret
   * leading.
   */
  lemma TwoLeaders(fleet: Members, indexId: string, p: nat, q: nat, a: nat, b: nat)
    requires OneIndex(fleet, indexId) && !Restless(fleet) && CanHand(fleet, a, b)
    requires p in fleet && q in fleet && fleet[p].paired && fleet[q].paired && fleet[p].secret != fleet[q].secret
    ensures Led(Handed(fleet, a, b), fleet[a].secret)
  {
    var next := Handed(fleet, a, b);
    HandedOne(fleet, indexId, a, b, next);
    assert !Alternates(fleet, p, a, q);
    CalmStays(fleet, indexId, a, b, next);
    assert a in next && next[a].paired;
    forall i | i in next && next[i].paired ensures next[i].secret == fleet[a].secret {
      assert !Alternates(next, a, b, i);
    }
  }

  // ---------------------------------------------------------------- exactly

  ghost predicate Bounded(fleet: Members, bound: nat) {
    forall run: seq<Pair> :: IsRun(fleet, run) ==> |run| <= bound
  }

  ghost predicate Settles(fleet: Members) {
    exists bound :: Bounded(fleet, bound)
  }

  lemma CalmSettles(fleet: Members, indexId: string, n: nat)
    requires OneIndex(fleet, indexId) && (forall i :: i in fleet ==> i < n) && !Restless(fleet)
    ensures Settles(fleet)
  {
    var all := Ranks(fleet);
    if q :| q in fleet && fleet[q].paired {
      if p :| p in fleet && fleet[p].paired && fleet[p].secret != fleet[q].secret {
        TwoLeadersSettle(fleet, indexId, n, p, q);
      } else {
        forall run: seq<Pair> | IsRun(fleet, run) ensures |run| <= Remaining(fleet, fleet[q].secret, all, n) {
          LedRunsEnd(fleet, indexId, fleet[q].secret, all, n, run);
        }
        assert Bounded(fleet, Remaining(fleet, fleet[q].secret, all, n));
      }
    } else {
      forall run: seq<Pair> | IsRun(fleet, run) ensures |run| <= Distance(fleet, all, n) {
        RunsEnd(fleet, indexId, all, n, run);
      }
      assert Bounded(fleet, Distance(fleet, all, n));
    }
  }

  lemma TwoLeadersSettle(fleet: Members, indexId: string, n: nat, p: nat, q: nat)
    requires OneIndex(fleet, indexId) && (forall i :: i in fleet ==> i < n) && !Restless(fleet)
    requires p in fleet && q in fleet && fleet[p].paired && fleet[q].paired && fleet[p].secret != fleet[q].secret
    ensures Settles(fleet)
  {
    var all := Ranks(fleet);
    var bound := 1 + n * (n * |all| + 1) + n * |all|;
    forall run: seq<Pair> | IsRun(fleet, run) ensures |run| <= bound {
      if run != [] { TwoLeadersBounded(fleet, indexId, n, p, q, all, run, bound); }
    }
    assert Bounded(fleet, bound);
  }

  lemma TwoLeadersBounded(fleet: Members, indexId: string, n: nat, p: nat, q: nat, all: set<Rank>, run: seq<Pair>,
                          bound: nat)
    requires OneIndex(fleet, indexId) && (forall i :: i in fleet ==> i < n) && !Restless(fleet)
    requires p in fleet && q in fleet && fleet[p].paired && fleet[q].paired && fleet[p].secret != fleet[q].secret
    requires all == Ranks(fleet) && bound == 1 + n * (n * |all| + 1) + n * |all| && run != [] && IsRun(fleet, run)
    ensures |run| <= bound
  {
    var a, b := run[0].from, run[0].to;
    var next, secret := Handed(fleet, a, b), fleet[a].secret;
    HandedOne(fleet, indexId, a, b, next);
    TwoLeaders(fleet, indexId, p, q, a, b);
    CalmStays(fleet, indexId, a, b, next);
    LedRunsEnd(next, indexId, secret, all, n, run[1..]);
    DistanceBounded(next, all, n);
    Product(Others(next, secret, n), n, n * |all| + 1);
  }

  lemma Product(x: nat, y: nat, k: nat)
    requires x <= y
    ensures x * k <= y * k
  {
    assert y * k == x * k + (y - x) * k;
  }

  /**
   * Which fleets settle: the runs of handovers are bounded exactly when the fleet is not restless, that is, when no
   * unpaired machine can take two secrets in turn, now or after a paired one has been handed another's.
   */
  lemma SettlesExactlyWhen(fleet: Members, indexId: string, n: nat)
    requires OneIndex(fleet, indexId) && forall i :: i in fleet ==> i < n
    ensures Settles(fleet) <==> !Restless(fleet)
  {
    if Restless(fleet) {
      forall bound: nat ensures !Bounded(fleet, bound) {
        var run := RestlessRuns(fleet, indexId, bound);
      }
    } else {
      CalmSettles(fleet, indexId, n);
    }
  }

  /** And where a calm fleet led by one secret settles: on that secret. */
  lemma LedFleetConverges(fleet: Members, indexId: string, secret: string, n: nat, run: seq<Pair>)
    requires OneIndex(fleet, indexId) && Led(fleet, secret) && !Restless(fleet) && IsRun(fleet, run)
    requires forall i :: i in fleet ==> i < n
    ensures Quiet(After(fleet, run)) <==> AllOn(After(fleet, run), secret)
  {
    var end := After(fleet, run);
    LedRunsEnd(fleet, indexId, secret, Ranks(fleet), n, run);
    var p :| p in end && end[p].paired;
    if Quiet(end) {
      forall t | t in end ensures end[t].secret == secret {
        HandsExactly(end, indexId, p, t);
        assert !CanHand(end, p, t);
      }
    }
  }

  /** The smallest case: one paired machine, and two of a later secret. */
  lemma MixedFleetIsRestless()
    ensures OneIndex(MixedFleet(), "i") && Restless(MixedFleet())
  {
    assert Alternates(MixedFleet(), 0, 1, 2);
  }
}
