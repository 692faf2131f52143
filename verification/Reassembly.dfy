/**
 * Reassembly whatever peers send (src/realtime-server.js:25-35, 409-436): what a delivered message is made of, how much
 * is ever held, and how promptly parts must come for their message to be delivered.
 */
module Reassembly {
  import opened Basics
  import opened Fragments

  // ---------------------------------------------------------------- what is delivered

  /** Two frames state the same message: all but the part, its bytes and the reset flag. */
  predicate SameMessage(f: Frame, g: Frame) {
    && f.messageId == g.messageId && f.total == g.total
    && f.header.documentId == g.header.documentId && f.header.path == g.header.path
    && f.header.revision == g.header.revision && f.header.baseHash == g.header.baseHash
    && f.header.kind == g.header.kind
  }

  /** A peer sent these bytes as this part of the message. */
  ghost predicate CameIn(log: seq<Arrival>, key: Key, first: Frame, part: nat, data: Bytes) {
    exists e :: e in log && KeyOf(e) == key && SameMessage(e.frame, first)
                && e.frame.part == part && e.frame.payload == data
  }

  ghost predicate AllCameIn(log: seq<Arrival>, key: Key, first: Frame, parts: seq<Bytes>) {
    |parts| == first.total && forall i :: 0 <= i < |parts| ==> CameIn(log, key, first, i, parts[i])
  }

  /** The message is the parts one peer sent for it under one id, each in its place. */
  ghost predicate MadeOf(log: seq<Arrival>, key: Key, m: Message) {
    exists first: Frame, parts: seq<Bytes> ::
      m == Message(first.header, Concat(parts)) && AllCameIn(log, key, first, parts)
  }

  /** An assembly holds what came in for its message, each part within its size. */
  ghost predicate Traced(log: seq<Arrival>, a: Assembly) {
    && 1 < |a.parts| == a.first.total <= 512 && a.received == Count(a.parts)
    && forall i :: 0 <= i < |a.parts| && a.parts[i].Some? ==>
         |a.parts[i].value| <= 24_582 && CameIn(log, a.key, a.first, i, a.parts[i].value)
  }

  /** At most 64 assemblies of at most 512 parts of at most 24582 bytes. */
  ghost predicate AllTraced(log: seq<Arrival>, s: Assemblies) {
    Keyed(s) && |s| <= 64 && forall a :: a in s ==> a.first.messageId == a.key.messageId && Traced(log, a)
  }

  lemma LogMore(log: seq<Arrival>, e: Arrival, a: Assembly)
    requires Traced(log, a)
    ensures Traced(log + [e], a)
  {
    forall i | 0 <= i < |a.parts| && a.parts[i].Some?
      ensures CameIn(log + [e], a.key, a.first, i, a.parts[i].value) {
      var x :| x in log && KeyOf(x) == a.key && SameMessage(x.frame, a.first)
               && x.frame.part == i && x.frame.payload == a.parts[i].value;
      assert x in log + [e];
    }
  }

  lemma OpenedTraced(log: seq<Arrival>, s: Assemblies, e: Arrival, begun: Assemblies, a: Assembly)
    requires AllTraced(log, s) && Valid(e.frame) && e.frame.total != 1
    requires Opened(s, KeyOf(e), e.frame, e.now) == (begun, a)
    ensures AllTraced(log, begun) && a in begun && a.key == KeyOf(e)
  {
    if Find(s, KeyOf(e)).None? {
      CountBounds(a.parts);
      if |s| >= 64 { WithoutIsShorter(s, Oldest(s).key); }
      assert begun[|begun| - 1] == a;
    }
  }

  lemma {:induction false} WithoutIsShorter(s: Assemblies, key: Key)
    ensures |Without(s, key)| <= |s|
    ensures (exists a :: a in s && a.key == key) ==> |Without(s, key)| < |s|
  {
    if s != [] {
      assert s == s[..|s| - 1] + [s[|s| - 1]];
      WithoutIsShorter(s[..|s| - 1], key);
    }
  }

  lemma {:induction false} AliveIsShorter(s: Assemblies, now: nat)
    ensures |Alive(s, now)| <= |s|
  {
    if s != [] { AliveIsShorter(s[..|s| - 1], now); }
  }

  lemma FilledTraced(log: seq<Arrival>, a: Assembly, e: Arrival)
    requires Traced(log, a) && a.key == KeyOf(e) && a.first.messageId == a.key.messageId
    requires Valid(e.frame) && Matches(a, e.frame)
    ensures Traced(log + [e], Filled(a, e.frame, e.now))
  {
    LogMore(log, e, a);
    var b := Filled(a, e.frame, e.now);
    if a.parts[e.frame.part].None? {
      CountFills(a.parts, e.frame.part, e.frame.payload);
      assert e in log + [e] && SameMessage(e.frame, a.first);
      assert CameIn(log + [e], b.key, b.first, e.frame.part, e.frame.payload);
    }
  }

  lemma CompleteIsMade(log: seq<Arrival>, a: Assembly)
    requires Traced(log, a) && a.received == |a.parts|
    ensures MadeOf(log, a.key, Message(a.first.header, Concat(Values(a.parts))))
  {
    CountBounds(a.parts);
    assert AllCameIn(log, a.key, a.first, Values(a.parts));
  }

  lemma SinglePart(log: seq<Arrival>, e: Arrival)
    requires Valid(e.frame) && e.frame.total == 1
    ensures MadeOf(log + [e], KeyOf(e), Message(e.frame.header, e.frame.payload))
  {
    var parts := [e.frame.payload];
    assert parts[..0] == [] && Concat(parts) == e.frame.payload;
    assert e in log + [e];
    assert CameIn(log + [e], KeyOf(e), e.frame, 0, parts[0]);
    assert AllCameIn(log + [e], KeyOf(e), e.frame, parts);
  }

  /** One arrival. */
  lemma StepTraced(log: seq<Arrival>, s: Assemblies, e: Arrival)
    requires AllTraced(log, s)
    ensures var r := Received(s, e.peer, e.frame, e.now);
            && AllTraced(log + [e], r.assemblies)
            && (r.delivered.Some? ==> MadeOf(log + [e], KeyOf(e), r.delivered.value))
  {
    forall a | a in s ensures Traced(log + [e], a) { LogMore(log, e, a); }
    if Valid(e.frame) {
      var alive := Alive(s, e.now);
      AliveIsShorter(s, e.now);
      if e.frame.total == 1 {
        SinglePart(log, e);
      } else {
        var (begun, a) := Opened(alive, KeyOf(e), e.frame, e.now);
        OpenedTraced(log, alive, e, begun, a);
        PlacedTraced(log, alive, e, begun, a);
      }
    }
  }

  lemma PlacedTraced(log: seq<Arrival>, alive: Assemblies, e: Arrival, begun: Assemblies, a: Assembly)
    requires AllTraced(log, begun) && a in begun && a.key == KeyOf(e) && Valid(e.frame) && e.frame.total != 1
    requires Opened(alive, KeyOf(e), e.frame, e.now) == (begun, a)
    ensures var r := Placed(alive, KeyOf(e), e.frame, e.now);
            && AllTraced(log + [e], r.assemblies)
            && (r.delivered.Some? ==> MadeOf(log + [e], KeyOf(e), r.delivered.value))
  {
    forall x | x in begun ensures Traced(log + [e], x) { LogMore(log, e, x); }
    if Matches(a, e.frame) {
      var b := Filled(a, e.frame, e.now);
      FilledTraced(log, a, e);
      PlacedIs(alive, KeyOf(e), e.frame, e.now, begun, a, b);
      if b.received == |b.parts| {
        CompleteIsMade(log + [e], b);
        WithoutIsShorter(begun, b.key);
      } else {
        ReplacedTraced(log + [e], begun, b);
      }
    }
  }

  lemma ReplacedTraced(log: seq<Arrival>, s: Assemblies, b: Assembly)
    requires AllTraced(log, s) && Traced(log, b) && b.first.messageId == b.key.messageId
    ensures AllTraced(log, Replaced(s, b))
  {
    forall a | a in Replaced(s, b) ensures a.first.messageId == a.key.messageId && Traced(log, a) {
      var i :| 0 <= i < |s| && Replaced(s, b)[i] == a;
      assert s[i] in s;
    }
  }

  /** The assemblies after a run. */
  function After(s: Assemblies, events: seq<Arrival>): Assemblies {
    if events == [] then s
    else
      var e := events[|events| - 1];
      Received(After(s, events[..|events| - 1]), e.peer, e.frame, e.now).assemblies
  }

  /** Whatever arrives, what is held stays within bounds, and is what came in for each message. */
  lemma {:induction false} HeldIsBounded(events: seq<Arrival>)
    ensures AllTraced(events, After([], events))
  {
    if events != [] {
      var init, e := events[..|events| - 1], events[|events| - 1];
      HeldIsBounded(init);
      StepTraced(init, After([], init), e);
      assert events == init + [e];
    }
  }

  /**
   * Whatever arrives, and from whomever: a message is delivered only as the parts that one peer sent under one id for
   * one document, path, revision, base and kind, all of them, each in its place.
   */
  lemma DeliveredIsMadeOf(events: seq<Arrival>, e: Arrival)
    ensures var delivered := Received(After([], events), e.peer, e.frame, e.now).delivered;
            delivered.Some? ==> MadeOf(events + [e], KeyOf(e), delivered.value)
  {
    HeldIsBounded(events);
    StepTraced(events, After([], events), e);
  }

  /** The messages that can be delivered at all are those of up to 12 MiB. */
  lemma DeliverableExactlyWhen(sent: Sent, e: Arrival)
    requires Honest(sent, e)
    ensures Valid(e.frame) <==> |sent(KeyOf(e)).value.payload| <= 12_582_912
  {
    HonestIsValid(sent, e);
    PartsWithin(sent(KeyOf(e)).value.payload);
  }

  lemma PartsWithin(payload: Bytes)
    ensures Parts(payload) <= 512 <==> |payload| <= 12_582_912
  {}

  // ---------------------------------------------------------------- room

  /** Room is made by dropping, of those least recently added to, the one begun first. */
  lemma {:induction false} OldestIsFirst(s: Assemblies) returns (k: nat)
    requires s != []
    ensures k < |s| && Oldest(s) == s[k]
    ensures forall i :: 0 <= i < |s| ==> s[i].updatedAt >= s[k].updatedAt
    ensures forall i :: 0 <= i < k ==> s[i].updatedAt > s[k].updatedAt
  {
    k := 0;
    if |s| > 1 {
      var before := OldestIsFirst(s[..|s| - 1]);
      k := if s[|s| - 1].updatedAt < s[before].updatedAt then |s| - 1 else before;
    }
  }

  /** Everything held was added to no more than 30 s ago. */
  ghost predicate NoneSilent(s: Assemblies, now: nat) {
    forall a :: a in s ==> now - a.updatedAt <= 30_000
  }

  lemma OpenedNotSilent(alive: Assemblies, e: Arrival, begun: Assemblies, a: Assembly)
    requires NoneSilent(alive, e.now) && Opened(alive, KeyOf(e), e.frame, e.now) == (begun, a)
    ensures NoneSilent(begun, e.now)
  {}

  lemma ReplacedNotSilent(s: Assemblies, b: Assembly, now: nat)
    requires NoneSilent(s, now) && b.updatedAt == now
    ensures NoneSilent(Replaced(s, b), now)
  {
    forall x | x in Replaced(s, b) ensures now - x.updatedAt <= 30_000 {
      var i :| 0 <= i < |s| && Replaced(s, b)[i] == x;
      assert s[i] in s;
    }
  }

  lemma PlacedNotSilent(alive: Assemblies, e: Arrival, begun: Assemblies, a: Assembly)
    requires NoneSilent(begun, e.now) && Valid(e.frame) && Opened(alive, KeyOf(e), e.frame, e.now) == (begun, a)
    ensures NoneSilent(Placed(alive, KeyOf(e), e.frame, e.now).assemblies, e.now)
  {
    if Matches(a, e.frame) {
      var b := Filled(a, e.frame, e.now);
      PlacedIs(alive, KeyOf(e), e.frame, e.now, begun, a, b);
      ReplacedNotSilent(begun, b, e.now);
    }
  }

  /** After any valid frame nothing is held that was last added to more than 30 s before. */
  lemma NothingSilentIsHeld(s: Assemblies, e: Arrival)
    requires Valid(e.frame)
    ensures NoneSilent(Received(s, e.peer, e.frame, e.now).assemblies, e.now)
  {
    if e.frame.total != 1 {
      var alive := Alive(s, e.now);
      var (begun, a) := Opened(alive, KeyOf(e), e.frame, e.now);
      OpenedNotSilent(alive, e, begun, a);
      PlacedNotSilent(alive, e, begun, a);
    }
  }

  // ---------------------------------------------------------------- promptness

  /** Until all parts of the message are there nothing arrives later than 30 s after the last of them. */
  predicate Prompt(events: seq<Arrival>, key: Key, n: nat, got: set<nat>, last: Option<nat>)
    decreases |events|
  {
    events == [] || Complete(got, n) ||
    (&& (last.Some? ==> events[0].now - last.value <= 30_000)
     && if KeyOf(events[0]) == key then Prompt(events[1..], key, n, got + {events[0].frame.part}, Some(events[0].now))
        else Prompt(events[1..], key, n, got, last))
  }

  /** The assembly was last added to by the message's last part. */
  ghost predicate LastAdded(s: Assemblies, key: Key, last: Option<nat>) {
    Find(s, key).Some? ==> last == Some(Find(s, key).value.updatedAt)
  }

  /** Every message under way is one of these. */
  ghost predicate Within(s: Assemblies, keys: set<Key>) {
    forall a :: a in s ==> a.key in keys
  }

  lemma {:induction false} DistinctKeys(s: Assemblies, keys: set<Key>)
    requires Keyed(s) && Within(s, keys)
    ensures |s| <= |keys|
  {
    if s != [] {
      var init, last := s[..|s| - 1], s[|s| - 1];
      forall a | a in init ensures a.key in keys - {last.key} {
        var i :| 0 <= i < |init| && init[i] == a;
        assert s[i] == a && a in s;
      }
      assert last in s;
      DistinctKeys(init, keys - {last.key});
    }
  }

  /** With at most 64 messages around, room never has to be made. */
  lemma NoRoomMade(s: Assemblies, e: Arrival, keys: set<Key>)
    requires Keyed(s) && Within(s, keys) && KeyOf(e) in keys && |keys| <= 64
    ensures !MakesRoom(s, e)
  {
    var alive := Alive(s, e.now);
    if Find(alive, KeyOf(e)).None? { DistinctKeys(alive, keys - {KeyOf(e)}); }
  }

  lemma StepWithin(s: Assemblies, e: Arrival, keys: set<Key>)
    requires Within(s, keys) && KeyOf(e) in keys
    ensures Within(Received(s, e.peer, e.frame, e.now).assemblies, keys)
  {
    if Valid(e.frame) && e.frame.total != 1 {
      var alive := Alive(s, e.now);
      var (begun, a) := Opened(alive, KeyOf(e), e.frame, e.now);
      OpenedWithin(alive, e, keys, begun, a);
      PlacedWithin(alive, e, keys, begun, a);
    }
  }

  lemma OpenedWithin(alive: Assemblies, e: Arrival, keys: set<Key>, begun: Assemblies, a: Assembly)
    requires Within(alive, keys) && KeyOf(e) in keys && Opened(alive, KeyOf(e), e.frame, e.now) == (begun, a)
    ensures Within(begun, keys) && a.key == KeyOf(e)
  {}

  lemma PlacedWithin(alive: Assemblies, e: Arrival, keys: set<Key>, begun: Assemblies, a: Assembly)
    requires Within(begun, keys) && Valid(e.frame) && Opened(alive, KeyOf(e), e.frame, e.now) == (begun, a)
    ensures Within(Placed(alive, KeyOf(e), e.frame, e.now).assemblies, keys)
  {
    if Matches(a, e.frame) {
      var b := Filled(a, e.frame, e.now);
      PlacedIs(alive, KeyOf(e), e.frame, e.now, begun, a, b);
      ReplacedWithin(begun, b, keys);
    }
  }

  lemma ReplacedWithin(s: Assemblies, b: Assembly, keys: set<Key>)
    requires Within(s, keys)
    ensures Within(Replaced(s, b), keys)
  {
    forall x | x in Replaced(s, b) ensures x.key in keys {
      var i :| 0 <= i < |s| && Replaced(s, b)[i] == x;
      assert s[i] in s;
    }
  }

  /** A part of the message leaves its assembly added to just now. */
  lemma OwnIsLast(sent: Sent, s: Assemblies, e: Arrival)
    requires AllSound(sent, s) && Honest(sent, e)
    ensures Valid(e.frame) ==> LastAdded(Received(s, e.peer, e.frame, e.now).assemblies, KeyOf(e), Some(e.now))
  {
    if Valid(e.frame) && e.frame.total == 1 {
      AliveFind(s, e.now, KeyOf(e));
      OneIsUnassembled(sent, s, e);
    } else if Valid(e.frame) {
      var alive := Alive(s, e.now);
      var (begun, a) := Opened(alive, KeyOf(e), e.frame, e.now);
      OpenedIsSound(sent, alive, e);
      var b := Filled(a, e.frame, e.now);
      PlacedIs(alive, KeyOf(e), e.frame, e.now, begun, a, b);
      ReplacedHolds(begun, b, a);
      FindIs(Replaced(begun, b), b);
    }
  }

  lemma OneIsUnassembled(sent: Sent, s: Assemblies, e: Arrival)
    requires AllSound(sent, s) && Honest(sent, e) && e.frame.total == 1
    ensures Find(s, KeyOf(e)).None?
  {}

  /** Of an honest run among these messages: what is held of one that is not complete, and that its parts are prompt. */
  ghost predicate OnTime(sent: Sent, s: Assemblies, events: seq<Arrival>, key: Key, n: nat, got: set<nat>,
                         last: Option<nat>, keys: set<Key>) {
    && AllSound(sent, s) && HonestRun(sent, events) && Within(s, keys) && |keys| <= 64
    && (forall i :: 0 <= i < |events| ==> KeyOf(events[i]) in keys)
    && sent(key).Some? && n == Parts(sent(key).value.payload) <= 512
    && Holding(s, key, n, got) && !Complete(got, n)
    && LastAdded(s, key, last) && Prompt(events, key, n, got, last)
  }

  lemma OnTimeStays(sent: Sent, s: Assemblies, events: seq<Arrival>, key: Key, n: nat, got: set<nat>,
                    last: Option<nat>, keys: set<Key>)
    requires OnTime(sent, s, events, key, n, got, last, keys) && events != []
    ensures Find(s, key).Some? ==> Stays(s, Find(s, key).value, events[0])
  {
    NoRoomMade(s, events[0], keys);
  }

  lemma OnTimeOther(sent: Sent, s: Assemblies, events: seq<Arrival>, key: Key, n: nat, got: set<nat>,
                    last: Option<nat>, keys: set<Key>, r: Result)
    requires OnTime(sent, s, events, key, n, got, last, keys) && events != [] && KeyOf(events[0]) != key
    requires r == Received(s, events[0].peer, events[0].frame, events[0].now)
    ensures OnTime(sent, r.assemblies, events[1..], key, n, got, last, keys)
  {
    OnTimeStays(sent, s, events, key, n, got, last, keys);
    ArrivalDelivers(sent, s, events[0]);
    StepWithin(s, events[0], keys);
    OtherArrival(sent, s, events[0], key);
  }

  lemma OnTimeOwn(sent: Sent, s: Assemblies, events: seq<Arrival>, key: Key, n: nat, got: set<nat>,
                  last: Option<nat>, keys: set<Key>, r: Result)
    requires OnTime(sent, s, events, key, n, got, last, keys) && events != [] && KeyOf(events[0]) == key
    requires r == Received(s, events[0].peer, events[0].frame, events[0].now) && r.delivered.None?
    ensures OnTime(sent, r.assemblies, events[1..], key, n, got + {events[0].frame.part}, Some(events[0].now), keys)
  {
    var e := events[0];
    OnTimeStays(sent, s, events, key, n, got, last, keys);
    HonestIsValid(sent, e);
    ArrivalDelivers(sent, s, e);
    StepWithin(s, e, keys);
    OwnIsLast(sent, s, e);
    OwnArrival(sent, s, e, n, got);
  }

  lemma {:induction false} PromptIsUndisturbed(sent: Sent, s: Assemblies, events: seq<Arrival>, key: Key, n: nat,
                                               got: set<nat>, last: Option<nat>, keys: set<Key>)
    requires OnTime(sent, s, events, key, n, got, last, keys)
    ensures Undisturbed(s, events, key)
    decreases |events|
  {
    if events != [] {
      var e := events[0];
      var r := Received(s, e.peer, e.frame, e.now);
      OnTimeStays(sent, s, events, key, n, got, last, keys);
      if KeyOf(e) != key {
        OnTimeOther(sent, s, events, key, n, got, last, keys, r);
        PromptIsUndisturbed(sent, r.assemblies, events[1..], key, n, got, last, keys);
      } else if r.delivered.None? {
        OnTimeOwn(sent, s, events, key, n, got, last, keys, r);
        PromptIsUndisturbed(sent, r.assemblies, events[1..], key, n, got + {e.frame.part}, Some(e.now), keys);
      }
    }
  }

  /**
   * From any state of honest peers: a message of up to 512 parts, all of which arrive, is delivered if until then
   * nothing arrives more than 30 s after its last part and no more than 64 messages are on their way.
   */
  lemma PromptPartsDeliver(sent: Sent, s: Assemblies, events: seq<Arrival>, key: Key, n: nat, keys: set<Key>)
    requires AllSound(sent, s) && HonestRun(sent, events) && Within(s, keys) && |keys| <= 64
    requires forall i :: 0 <= i < |events| ==> KeyOf(events[i]) in keys
    requires sent(key).Some? && n == Parts(sent(key).value.payload) <= 512 && Find(s, key).None?
    requires forall part: nat :: part < n ==> Arrives(events, key, part)
    requires Prompt(events, key, n, {}, None)
    ensures DeliveredIn(s, events, key, sent(key).value)
  {
    var none: set<nat> := {};
    assert 0 < n && 0 !in none;
    PromptIsUndisturbed(sent, s, events, key, n, none, None, keys);
    assert Coming(events, key, n, none);
    AllPartsDeliver(sent, s, events, key, n, none);
  }
}
