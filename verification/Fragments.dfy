/**
 * src/realtime-server.js:20-35, 391-436, 767-790: a message is cut into parts to be sent, and put together
 * again from whatever arrives, in whatever order, within the limits on time and room.
 */
module Fragments {
  import opened Basics

  type Peer = string
  type MessageId = string

  const CHUNK_BYTES: nat := 24 * 1024
  const MAX_PARTS: nat := 512
  const MAX_ASSEMBLIES: nat := 64
  const ASSEMBLY_TTL_MS: nat := 30_000

  /** The fields every part of a message repeats. */
  datatype Header = Header(documentId: string, path: Path, revision: string, baseHash: string, kind: string,
                           reset: bool)
  datatype Message = Message(header: Header, payload: Bytes)
  datatype Frame = Frame(messageId: MessageId, header: Header, part: nat, total: nat, payload: Bytes)

  // ---------------------------------------------------------------- cutting

  function Parts(payload: Bytes): (total: nat)
    ensures total >= 1 && (total - 1) * CHUNK_BYTES <= |payload| <= total * CHUNK_BYTES
    ensures |payload| > 0 ==> (total - 1) * CHUNK_BYTES < |payload|
  {
    var parts := (|payload| + CHUNK_BYTES - 1) / CHUNK_BYTES;
    if parts == 0 then 1 else parts
  }

  function Part(payload: Bytes, i: nat): Bytes
    requires i < Parts(payload)
  {
    var end := (i + 1) * CHUNK_BYTES;
    payload[i * CHUNK_BYTES..if end <= |payload| then end else |payload|]
  }

  function FrameOf(m: Message, id: MessageId, i: nat): Frame
    requires i < Parts(m.payload)
  {
    Frame(id, m.header, i, Parts(m.payload), Part(m.payload, i))
  }

  method Send(m: Message, id: MessageId) returns (frames: seq<Frame>)
    ensures |frames| == Parts(m.payload) && forall i :: 0 <= i < |frames| ==> frames[i] == FrameOf(m, id, i)
  {
    var total := Parts(m.payload);
    frames := [];
    for part := 0 to total
      invariant |frames| == part && forall i :: 0 <= i < part ==> frames[i] == FrameOf(m, id, i)
    {
      var end := (part + 1) * CHUNK_BYTES;
      if end > |m.payload| { end := |m.payload|; }
      frames := frames + [Frame(id, m.header, part, total, m.payload[part * CHUNK_BYTES..end])];
    }
  }

  function Concat(parts: seq<Bytes>): Bytes {
    if parts == [] then [] else Concat(parts[..|parts| - 1]) + parts[|parts| - 1]
  }

  /** How far the first n parts reach. */
  function Reach(payload: Bytes, n: nat): (end: nat)
    requires n <= Parts(payload)
    ensures end <= |payload|
  {
    if n == Parts(payload) then |payload| else n * CHUNK_BYTES
  }

  lemma NextPart(payload: Bytes, n: nat)
    requires n < Parts(payload)
    ensures payload[..Reach(payload, n)] + Part(payload, n) == payload[..Reach(payload, n + 1)]
  {
    var from, to := Reach(payload, n), Reach(payload, n + 1);
    assert Part(payload, n) == payload[from..to];
    assert payload[..to] == payload[..from] + payload[from..to];
  }

  lemma {:induction false} PartsMakeWhole(payload: Bytes, parts: seq<Bytes>)
    requires |parts| <= Parts(payload) && forall i :: 0 <= i < |parts| ==> parts[i] == Part(payload, i)
    ensures Concat(parts) == payload[..Reach(payload, |parts|)]
  {
    if parts != [] {
      var n := |parts| - 1;
      PartsMakeWhole(payload, parts[..n]);
      NextPart(payload, n);
    }
  }

  // ---------------------------------------------------------------- putting together

  datatype Key = Key(peer: Peer, messageId: MessageId)
  datatype Assembly = Assembly(key: Key, first: Frame, parts: seq<Option<Bytes>>, received: nat, updatedAt: nat)

  /** The assemblies, in the order they were begun. */
  type Assemblies = seq<Assembly>

  /** validFrame, as far as the parts go; base64 takes four units for every three bytes. */
  predicate Valid(f: Frame) {
    f.part < f.total <= MAX_PARTS && (|f.payload| + 2) / 3 * 4 <= CHUNK_BYTES / 3 * 4 + 8
  }

  predicate Keyed(s: Assemblies) {
    forall i, j :: 0 <= i < j < |s| ==> s[i].key != s[j].key
  }

  function Alive(s: Assemblies, now: nat): (r: Assemblies)
    ensures forall a :: a in r <==> a in s && now - a.updatedAt <= ASSEMBLY_TTL_MS
    ensures Keyed(s) ==> Keyed(r)
  {
    if s == [] then []
    else
      assert s == s[..|s| - 1] + [s[|s| - 1]];
      Alive(s[..|s| - 1], now) + if now - s[|s| - 1].updatedAt > ASSEMBLY_TTL_MS then [] else [s[|s| - 1]]
  }

  function Without(s: Assemblies, key: Key): (r: Assemblies)
    ensures forall a :: a in r <==> a in s && a.key != key
    ensures Keyed(s) ==> Keyed(r)
  {
    if s == [] then []
    else
      assert s == s[..|s| - 1] + [s[|s| - 1]];
      Without(s[..|s| - 1], key) + if s[|s| - 1].key == key then [] else [s[|s| - 1]]
  }

  function Find(s: Assemblies, key: Key): (found: Option<Assembly>)
    ensures found.None? ==> forall a :: a in s ==> a.key != key
    ensures found.Some? ==> found.value in s && found.value.key == key
  {
    if s == [] then None
    else
      assert s == s[..|s| - 1] + [s[|s| - 1]];
      if s[|s| - 1].key == key then Some(s[|s| - 1]) else Find(s[..|s| - 1], key)
  }

  /** The first in order among those least recently updated. */
  function Oldest(s: Assemblies): (a: Assembly)
    requires s != []
    ensures a in s && forall i :: 0 <= i < |s| ==> a.updatedAt <= s[i].updatedAt
  {
    if |s| == 1 then s[0]
    else
      var before := Oldest(s[..|s| - 1]);
      if s[|s| - 1].updatedAt < before.updatedAt then s[|s| - 1] else before
  }

  function Begin(key: Key, f: Frame, now: nat): Assembly {
    Assembly(key, f, seq(f.total, _ => None), 0, now)
  }

  /** The assembly a frame belongs to, begun if need be; room is made by dropping the oldest. */
  function Opened(s: Assemblies, key: Key, f: Frame, now: nat): (Assemblies, Assembly) {
    match Find(s, key)
    case Some(a) => (s, a)
    case None =>
      var room := if |s| >= MAX_ASSEMBLIES then Without(s, Oldest(s).key) else s;
      (room + [Begin(key, f, now)], Begin(key, f, now))
  }

  predicate Matches(a: Assembly, f: Frame) {
    var g, h := a.first.header, f.header;
    && g.documentId == h.documentId && g.path == h.path && g.revision == h.revision && g.baseHash == h.baseHash
    && g.kind == h.kind
    && |a.parts| == f.total
  }

  function Filled(a: Assembly, f: Frame, now: nat): Assembly
    requires f.part < |a.parts|
  {
    if a.parts[f.part].Some? then a.(updatedAt := now)
    else a.(updatedAt := now, parts := a.parts[f.part := Some(f.payload)], received := a.received + 1)
  }

  function Replaced(s: Assemblies, a: Assembly): (r: Assemblies)
    ensures |r| == |s| && forall i :: 0 <= i < |s| ==> r[i] == if s[i].key == a.key then a else s[i]
    ensures Keyed(s) ==> Keyed(r)
  {
    if s == [] then [] else Replaced(s[..|s| - 1], a) + [if s[|s| - 1].key == a.key then a else s[|s| - 1]]
  }

  function Values(parts: seq<Option<Bytes>>): seq<Bytes> {
    seq(|parts|, i requires 0 <= i < |parts| => if parts[i].Some? then parts[i].value else [])
  }

  datatype Result = Result(assemblies: Assemblies, delivered: Option<Message>)

  /** A part is placed; the last one missing completes its message. */
  function Placed(alive: Assemblies, key: Key, f: Frame, now: nat): Result
    requires Valid(f)
  {
    var (begun, a) := Opened(alive, key, f, now);
    if !Matches(a, f) then Result(begun, None)
    else
      var b := Filled(a, f, now);
      if b.received != |b.parts| then Result(Replaced(begun, b), None)
      else Result(Without(begun, b.key), Some(Message(b.first.header, Concat(Values(b.parts)))))
  }

  function Assembled(s: Assemblies, peer: Peer, f: Frame, now: nat): Result
    requires Valid(f)
  {
    var alive := Alive(s, now);
    if f.total == 1 then Result(alive, Some(Message(f.header, f.payload)))
    else Placed(alive, Key(peer, f.messageId), f, now)
  }

  function Received(s: Assemblies, peer: Peer, f: Frame, now: nat): Result {
    if Valid(f) then Assembled(s, peer, f, now) else Result(s, None)
  }

  // ---------------------------------------------------------------- honest senders

  /** Which message, if any, goes under which peer and message id: ids do not repeat. */
  type Sent = Key -> Option<Message>

  datatype Arrival = Arrival(peer: Peer, frame: Frame, now: nat)

  function KeyOf(e: Arrival): Key {
    Key(e.peer, e.frame.messageId)
  }

  predicate Honest(sent: Sent, e: Arrival) {
    var m := sent(KeyOf(e));
    m.Some? && e.frame.part < Parts(m.value.payload) && e.frame == FrameOf(m.value, e.frame.messageId, e.frame.part)
  }

  function Count(parts: seq<Option<Bytes>>): nat {
    if parts == [] then 0 else Count(parts[..|parts| - 1]) + if parts[|parts| - 1].Some? then 1 else 0
  }

  lemma {:induction false} CountBounds(parts: seq<Option<Bytes>>)
    ensures Count(parts) <= |parts|
    ensures Count(parts) == |parts| <==> forall i :: 0 <= i < |parts| ==> parts[i].Some?
    ensures Count(parts) == 0 <==> forall i :: 0 <= i < |parts| ==> parts[i].None?
  {
    if parts != [] { CountBounds(parts[..|parts| - 1]); }
  }

  lemma {:induction false} CountFills(parts: seq<Option<Bytes>>, i: nat, data: Bytes)
    requires i < |parts| && parts[i].None?
    ensures Count(parts[i := Some(data)]) == Count(parts) + 1
  {
    var n, after := |parts| - 1, parts[i := Some(data)];
    if i < n {
      assert after[..n] == parts[..n][i := Some(data)];
      CountFills(parts[..n], i, data);
    } else {
      assert after[..n] == parts[..n];
    }
  }

  /** An assembly holds parts of its message only, and counts them. */
  ghost predicate Sound(sent: Sent, a: Assembly) {
    && sent(a.key).Some?
    && var m := sent(a.key).value;
       && a.first.header == m.header && 1 < |a.parts| == Parts(m.payload) <= MAX_PARTS
       && (forall i :: 0 <= i < |a.parts| && a.parts[i].Some? ==> a.parts[i].value == Part(m.payload, i))
       && a.received == Count(a.parts)
  }

  ghost predicate AllSound(sent: Sent, s: Assemblies) {
    Keyed(s) && forall a :: a in s ==> Sound(sent, a)
  }

  lemma BeginIsSound(sent: Sent, e: Arrival)
    requires Honest(sent, e) && Valid(e.frame) && e.frame.total != 1
    ensures Sound(sent, Begin(KeyOf(e), e.frame, e.now))
  {
    CountBounds(Begin(KeyOf(e), e.frame, e.now).parts);
  }

  lemma OpenedIsSound(sent: Sent, s: Assemblies, e: Arrival)
    requires AllSound(sent, s) && Honest(sent, e) && Valid(e.frame) && e.frame.total != 1
    ensures var (begun, a) := Opened(s, KeyOf(e), e.frame, e.now);
            AllSound(sent, begun) && a in begun && a.key == KeyOf(e) && Matches(a, e.frame)
  {
    BeginIsSound(sent, e);
    var (begun, a) := Opened(s, KeyOf(e), e.frame, e.now);
    if Find(s, KeyOf(e)).None? { assert begun[|begun| - 1] == a; }
  }

  lemma FilledIsSound(sent: Sent, a: Assembly, e: Arrival)
    requires Sound(sent, a) && a.key == KeyOf(e) && Honest(sent, e)
    ensures Sound(sent, Filled(a, e.frame, e.now))
  {
    if a.parts[e.frame.part].None? { CountFills(a.parts, e.frame.part, e.frame.payload); }
  }

  /** All parts there: put together they are the message. */
  lemma CompleteIsMessage(sent: Sent, a: Assembly)
    requires Sound(sent, a) && a.received == |a.parts|
    ensures Message(a.first.header, Concat(Values(a.parts))) == sent(a.key).value
  {
    var m := sent(a.key).value;
    CountBounds(a.parts);
    PartsMakeWhole(m.payload, Values(a.parts));
    assert m.payload[..|m.payload|] == m.payload;
  }

  lemma OnePart(payload: Bytes)
    requires Parts(payload) == 1
    ensures Part(payload, 0) == payload
  {}

  /** Once the assembly is opened, what is placed depends on how its part fills it. */
  lemma PlacedIs(alive: Assemblies, key: Key, f: Frame, now: nat, begun: Assemblies, a: Assembly, b: Assembly)
    requires Valid(f) && Opened(alive, key, f, now) == (begun, a) && Matches(a, f) && b == Filled(a, f, now)
    ensures Placed(alive, key, f, now) ==
              if b.received != |b.parts| then Result(Replaced(begun, b), None)
              else Result(Without(begun, b.key), Some(Message(b.first.header, Concat(Values(b.parts)))))
  {}

  lemma PlacedDelivers(sent: Sent, alive: Assemblies, e: Arrival, begun: Assemblies, a: Assembly, b: Assembly)
    requires AllSound(sent, alive) && Honest(sent, e) && Valid(e.frame) && e.frame.total != 1
    requires Opened(alive, KeyOf(e), e.frame, e.now) == (begun, a) && b == Filled(a, e.frame, e.now)
    ensures var r := Placed(alive, KeyOf(e), e.frame, e.now);
            && AllSound(sent, r.assemblies)
            && (r.delivered.Some? ==> r.delivered == sent(KeyOf(e)) && Parts(r.delivered.value.payload) <= MAX_PARTS)
  {
    OpenedIsSound(sent, alive, e);
    FilledIsSound(sent, a, e);
    PlacedIs(alive, KeyOf(e), e.frame, e.now, begun, a, b);
    if b.received == |b.parts| { CompleteIsMessage(sent, b); }
  }

  /** One arrival: what is delivered is the message sent under that id, whole, and it had no more than 512 parts. */
  lemma ArrivalDelivers(sent: Sent, s: Assemblies, e: Arrival)
    requires AllSound(sent, s) && Honest(sent, e)
    ensures var r := Received(s, e.peer, e.frame, e.now);
            && AllSound(sent, r.assemblies)
            && (r.delivered.Some? ==> r.delivered == sent(KeyOf(e)) && Parts(r.delivered.value.payload) <= MAX_PARTS)
  {
    if Valid(e.frame) {
      if e.frame.total == 1 {
        OnePart(sent(KeyOf(e)).value.payload);
      } else {
        var alive := Alive(s, e.now);
        var (begun, a) := Opened(alive, KeyOf(e), e.frame, e.now);
        OpenedIsSound(sent, alive, e);
        PlacedDelivers(sent, alive, e, begun, a, Filled(a, e.frame, e.now));
      }
    }
  }

  // ---------------------------------------------------------------- runs

  function Deliveries(s: Assemblies, events: seq<Arrival>): (d: seq<Option<Message>>)
    ensures |d| == |events|
    decreases |events|
  {
    if events == [] then []
    else
      var r := Received(s, events[0].peer, events[0].frame, events[0].now);
      [r.delivered] + Deliveries(r.assemblies, events[1..])
  }

  ghost predicate HonestRun(sent: Sent, events: seq<Arrival>) {
    forall i :: 0 <= i < |events| ==> Honest(sent, events[i])
  }

  lemma DeliveriesNext(s: Assemblies, events: seq<Arrival>, r: Result)
    requires events != [] && r == Received(s, events[0].peer, events[0].frame, events[0].now)
    ensures Deliveries(s, events) == [r.delivered] + Deliveries(r.assemblies, events[1..])
  {}

  /**
   * However the parts are mixed, reordered, repeated, dropped, expired or evicted: only whole messages come out, each
   * as it was sent.
   */
  lemma {:induction false} OnlyWholeMessages(sent: Sent, s: Assemblies, events: seq<Arrival>)
    requires AllSound(sent, s) && HonestRun(sent, events)
    ensures forall i :: 0 <= i < |events| && Deliveries(s, events)[i].Some? ==>
              Deliveries(s, events)[i] == sent(KeyOf(events[i]))
              && Parts(Deliveries(s, events)[i].value.payload) <= MAX_PARTS
    decreases |events|
  {
    if events != [] {
      ArrivalDelivers(sent, s, events[0]);
      var r := Received(s, events[0].peer, events[0].frame, events[0].now);
      OnlyWholeMessages(sent, r.assemblies, events[1..]);
      DeliveriesNext(s, events, r);
    }
  }

  // ---------------------------------------------------------------- and they do come out

  lemma FindIs(s: Assemblies, a: Assembly)
    requires Keyed(s) && a in s
    ensures Find(s, a.key) == Some(a)
  {}

  /** These parts, and no others, of the message are held. */
  ghost predicate Holding(s: Assemblies, key: Key, n: nat, got: set<nat>) {
    var found := Find(s, key);
    if got == {} then found.None?
    else found.Some? && |found.value.parts| == n && forall i :: 0 <= i < n ==>
      (found.value.parts[i].Some? <==> i in got)
  }

  /** An arrival begins an assembly with no room left. */
  predicate MakesRoom(s: Assemblies, e: Arrival) {
    var alive := Alive(s, e.now);
    Valid(e.frame) && e.frame.total != 1 && Find(alive, KeyOf(e)).None? && |alive| >= MAX_ASSEMBLIES
  }

  /** The assembly outlives an arrival: it has not expired, and it is not the oldest when room is made. */
  predicate Stays(s: Assemblies, a: Assembly, e: Arrival) {
    && (Valid(e.frame) ==> e.now - a.updatedAt <= ASSEMBLY_TTL_MS)
    && (MakesRoom(s, e) ==> Oldest(Alive(s, e.now)).key != a.key)
  }

  lemma ReplacedHolds(s: Assemblies, b: Assembly, a: Assembly)
    requires Keyed(s) && a in s
    ensures (if a.key == b.key then b else a) in Replaced(s, b)
  {
    var i :| 0 <= i < |s| && s[i] == a;
    assert Replaced(s, b)[i] in Replaced(s, b);
  }

  lemma ReplacedKeys(s: Assemblies, b: Assembly, key: Key)
    requires forall a :: a in s ==> a.key != key
    ensures forall a :: a in Replaced(s, b) && b.key != key ==> a.key != key
  {
    forall a | a in Replaced(s, b) && b.key != key ensures a.key != key {
      var i :| 0 <= i < |s| && Replaced(s, b)[i] == a;
      assert s[i] in s;
    }
  }

  /** What another message's part does to an assembly: nothing, or it is gone, exactly when it does not outlive it. */
  lemma OtherArrival(sent: Sent, s: Assemblies, e: Arrival, key: Key)
    requires AllSound(sent, s) && Honest(sent, e) && KeyOf(e) != key
    ensures var before, after := Find(s, key), Find(Received(s, e.peer, e.frame, e.now).assemblies, key);
            after == if before.Some? && Stays(s, before.value, e) then before else None
  {
    if Valid(e.frame) {
      AliveFind(s, e.now, key);
      if e.frame.total != 1 {
        var (begun, a) := Opened(Alive(s, e.now), KeyOf(e), e.frame, e.now);
        OtherPlaced(sent, Alive(s, e.now), e, key, begun, a);
      }
    }
  }

  lemma OtherPlaced(sent: Sent, alive: Assemblies, e: Arrival, key: Key, begun: Assemblies, a: Assembly)
    requires AllSound(sent, alive) && Honest(sent, e) && KeyOf(e) != key && Valid(e.frame) && e.frame.total != 1
    requires Opened(alive, KeyOf(e), e.frame, e.now) == (begun, a)
    ensures Find(Placed(alive, KeyOf(e), e.frame, e.now).assemblies, key) ==
              if Find(alive, KeyOf(e)).None? && |alive| >= MAX_ASSEMBLIES && Oldest(alive).key == key then None
              else Find(alive, key)
  {
    OpenedIsSound(sent, alive, e);
    var b := Filled(a, e.frame, e.now);
    OtherOpens(alive, e, key, begun);
    OtherFills(begun, b, key);
    PlacedIs(alive, KeyOf(e), e.frame, e.now, begun, a, b);
  }

  lemma AliveNext(s: Assemblies, i: nat, now: nat)
    requires i < |s|
    ensures Alive(s[..i + 1], now) ==
              if now - s[i].updatedAt <= ASSEMBLY_TTL_MS then Alive(s[..i], now) + [s[i]] else Alive(s[..i], now)
  {
    var init := s[..i + 1];
    assert init[..|init| - 1] == s[..i] && init[|init| - 1] == s[i];
  }

  lemma AliveFind(s: Assemblies, now: nat, key: Key)
    requires Keyed(s)
    ensures Find(Alive(s, now), key) ==
              if Find(s, key).Some? && now - Find(s, key).value.updatedAt <= ASSEMBLY_TTL_MS
              then Find(s, key) else None
  {
    var found := Find(Alive(s, now), key);
    if found.Some? { FindIs(s, found.value); }
    if Find(s, key).Some? && Find(s, key).value in Alive(s, now) { FindIs(Alive(s, now), Find(s, key).value); }
  }

  lemma OtherOpens(alive: Assemblies, e: Arrival, key: Key, begun: Assemblies)
    requires Keyed(alive) && KeyOf(e) != key && begun == Opened(alive, KeyOf(e), e.frame, e.now).0
    ensures Find(begun, key) ==
              if Find(alive, KeyOf(e)).None? && |alive| >= MAX_ASSEMBLIES && Oldest(alive).key == key then None
              else Find(alive, key)
  {
    if Find(alive, KeyOf(e)).None? {
      var room := if |alive| >= MAX_ASSEMBLIES then Without(alive, Oldest(alive).key) else alive;
      assert begun[..|begun| - 1] == room;
      if |alive| >= MAX_ASSEMBLIES { WithoutFind(alive, Oldest(alive).key, key); }
    }
  }

  lemma WithoutFind(s: Assemblies, gone: Key, key: Key)
    requires Keyed(s)
    ensures Find(Without(s, gone), key) == if key == gone then None else Find(s, key)
  {
    var found := Find(Without(s, gone), key);
    if found.Some? { FindIs(s, found.value); }
    if key != gone && Find(s, key).Some? { FindIs(Without(s, gone), Find(s, key).value); }
  }

  lemma OtherFills(begun: Assemblies, b: Assembly, key: Key)
    requires Keyed(begun) && b.key != key
    ensures Find(Replaced(begun, b), key) == Find(begun, key) == Find(Without(begun, b.key), key)
  {
    var found := Find(begun, key);
    if found.Some? {
      ReplacedHolds(begun, b, found.value);
      FindIs(Replaced(begun, b), found.value);
      FindIs(Without(begun, b.key), found.value);
    } else {
      ReplacedKeys(begun, b, key);
    }
  }

  predicate Complete(got: set<nat>, n: nat) {
    forall i: nat :: i < n ==> i in got
  }

  /** A part of the message itself: held with the others, or the last one missing. */
  lemma OwnArrival(sent: Sent, s: Assemblies, e: Arrival, n: nat, got: set<nat>)
    requires AllSound(sent, s) && Honest(sent, e) && n == Parts(sent(KeyOf(e)).value.payload) && 1 < n <= MAX_PARTS
    requires Holding(s, KeyOf(e), n, got) && (got != {} ==> Stays(s, Find(s, KeyOf(e)).value, e))
    ensures var r := Received(s, e.peer, e.frame, e.now);
            if Complete(got + {e.frame.part}, n) then r.delivered == sent(KeyOf(e))
            else r.delivered.None? && Holding(r.assemblies, KeyOf(e), n, got + {e.frame.part})
  {
    var alive := Alive(s, e.now);
    HonestIsValid(sent, e);
    AliveFind(s, e.now, KeyOf(e));
    OpenedIsSound(sent, alive, e);
    var (begun, a) := Opened(alive, KeyOf(e), e.frame, e.now);
    OwnOpened(alive, e, n, got, a);
    OwnPlaced(sent, begun, a, e, n, got, Filled(a, e.frame, e.now));
    PlacedIs(alive, KeyOf(e), e.frame, e.now, begun, a, Filled(a, e.frame, e.now));
    OwnReceived(sent, s, alive, e, n, got, begun, Filled(a, e.frame, e.now));
  }

  lemma OwnReceived(sent: Sent, s: Assemblies, alive: Assemblies, e: Arrival, n: nat, got: set<nat>,
                    begun: Assemblies, b: Assembly)
    requires alive == Alive(s, e.now) && Valid(e.frame) && e.frame.total != 1
    requires Placed(alive, KeyOf(e), e.frame, e.now) ==
               if b.received != |b.parts| then Result(Replaced(begun, b), None)
               else Result(Without(begun, b.key), Some(Message(b.first.header, Concat(Values(b.parts)))))
    requires if Complete(got + {e.frame.part}, n)
             then b.received == |b.parts| && Some(Message(b.first.header, Concat(Values(b.parts)))) == sent(KeyOf(e))
             else b.received != |b.parts| && Holding(Replaced(begun, b), KeyOf(e), n, got + {e.frame.part})
    ensures var r := Received(s, e.peer, e.frame, e.now);
            if Complete(got + {e.frame.part}, n) then r.delivered == sent(KeyOf(e))
            else r.delivered.None? && Holding(r.assemblies, KeyOf(e), n, got + {e.frame.part})
  {}

  /** The assembly the part is placed in holds what was held, which is nothing when it is new. */
  lemma OwnOpened(alive: Assemblies, e: Arrival, n: nat, got: set<nat>, a: Assembly)
    requires Holding(alive, KeyOf(e), n, got) && e.frame.total == n
    requires a == Opened(alive, KeyOf(e), e.frame, e.now).1
    ensures |a.parts| == n && forall i :: 0 <= i < n ==> (a.parts[i].Some? <==> i in got)
  {}

  lemma OwnPlaced(sent: Sent, begun: Assemblies, a: Assembly, e: Arrival, n: nat, got: set<nat>, b: Assembly)
    requires AllSound(sent, begun) && a in begun && a.key == KeyOf(e) && Honest(sent, e)
    requires |a.parts| == n == Parts(sent(KeyOf(e)).value.payload)
    requires forall i :: 0 <= i < n ==> (a.parts[i].Some? <==> i in got)
    requires b == Filled(a, e.frame, e.now)
    ensures if Complete(got + {e.frame.part}, n)
            then b.received == |b.parts| && Some(Message(b.first.header, Concat(Values(b.parts)))) == sent(KeyOf(e))
            else b.received != |b.parts| && Holding(Replaced(begun, b), KeyOf(e), n, got + {e.frame.part})
  {
    FilledIsSound(sent, a, e);
    CountBounds(b.parts);
    assert forall i :: 0 <= i < n ==> (b.parts[i].Some? <==> i in got + {e.frame.part});
    if b.received == n {
      CompleteIsMessage(sent, b);
    } else {
      ReplacedHolds(begun, b, a);
      FindIs(Replaced(begun, b), b);
    }
  }

  lemma HonestIsValid(sent: Sent, e: Arrival)
    requires Honest(sent, e)
    ensures Valid(e.frame) <==> Parts(sent(KeyOf(e)).value.payload) <= MAX_PARTS
  {
    assert |e.frame.payload| <= CHUNK_BYTES;
  }

  /** Until it is delivered the message's assembly outlives every arrival. */
  predicate Undisturbed(s: Assemblies, events: seq<Arrival>, key: Key)
    decreases |events|
  {
    events == [] ||
    (var e := events[0];
     var r := Received(s, e.peer, e.frame, e.now);
     && (Find(s, key).Some? ==> Stays(s, Find(s, key).value, e))
     && ((KeyOf(e) == key && r.delivered.Some?) || Undisturbed(r.assemblies, events[1..], key)))
  }

  ghost predicate Arrives(events: seq<Arrival>, key: Key, part: nat) {
    exists j :: 0 <= j < |events| && KeyOf(events[j]) == key && events[j].frame.part == part
  }

  /** Some part is still missing, and every missing part arrives. */
  ghost predicate Coming(events: seq<Arrival>, key: Key, n: nat, got: set<nat>) {
    && (exists i: nat :: i < n && i !in got)
    && (forall i: nat :: i < n && i !in got ==> Arrives(events, key, i))
  }

  lemma StillComing(events: seq<Arrival>, key: Key, n: nat, got: set<nat>, got': set<nat>)
    requires events != [] && Coming(events, key, n, got)
    requires got' == if KeyOf(events[0]) == key then got + {events[0].frame.part} else got
    requires exists i: nat :: i < n && i !in got'
    ensures Coming(events[1..], key, n, got')
  {
    forall i: nat | i < n && i !in got' ensures Arrives(events[1..], key, i) {
      assert Arrives(events, key, i);
      var j :| 0 <= j < |events| && KeyOf(events[j]) == key && events[j].frame.part == i;
      assert events[1..][j - 1] == events[j];
    }
  }

  ghost predicate DeliveredIn(s: Assemblies, events: seq<Arrival>, key: Key, m: Message) {
    exists j :: 0 <= j < |events| && KeyOf(events[j]) == key && Deliveries(s, events)[j] == Some(m)
  }

  lemma DeliveredNow(s: Assemblies, events: seq<Arrival>, r: Result, m: Message)
    requires events != [] && r == Received(s, events[0].peer, events[0].frame, events[0].now) && r.delivered == Some(m)
    ensures DeliveredIn(s, events, KeyOf(events[0]), m)
  {
    assert Deliveries(s, events)[0] == r.delivered;
  }

  lemma DeliveredLater(s: Assemblies, events: seq<Arrival>, key: Key, m: Message)
    requires events != []
    requires DeliveredIn(Received(s, events[0].peer, events[0].frame, events[0].now).assemblies, events[1..], key, m)
    ensures DeliveredIn(s, events, key, m)
  {
    var r := Received(s, events[0].peer, events[0].frame, events[0].now);
    var j :| 0 <= j < |events[1..]| && KeyOf(events[1..][j]) == key
      && Deliveries(r.assemblies, events[1..])[j] == Some(m);
    assert Deliveries(s, events)[j + 1] == Some(m) && KeyOf(events[j + 1]) == key;
  }

  /** Of an honest run: what is held of the message, and that every part still missing comes, undisturbed. */
  ghost predicate Awaiting(sent: Sent, s: Assemblies, events: seq<Arrival>, key: Key, n: nat, got: set<nat>) {
    && AllSound(sent, s) && HonestRun(sent, events)
    && sent(key).Some? && n == Parts(sent(key).value.payload) <= MAX_PARTS
    && Holding(s, key, n, got) && Coming(events, key, n, got) && Undisturbed(s, events, key)
  }

  lemma AwaitingNext(sent: Sent, s: Assemblies, events: seq<Arrival>, key: Key, n: nat, got: set<nat>, r: Result)
    returns (got': set<nat>)
    requires Awaiting(sent, s, events, key, n, got) && events != []
    requires r == Received(s, events[0].peer, events[0].frame, events[0].now)
    requires !(KeyOf(events[0]) == key && r.delivered.Some?)
    ensures Awaiting(sent, r.assemblies, events[1..], key, n, got')
  {
    ArrivalDelivers(sent, s, events[0]);
    got' := GoesOn(sent, s, events[0], key, n, got);
    StillComing(events, key, n, got, got');
  }

  lemma AwaitedNow(sent: Sent, s: Assemblies, events: seq<Arrival>, key: Key, r: Result)
    requires AllSound(sent, s) && HonestRun(sent, events) && events != [] && KeyOf(events[0]) == key && sent(key).Some?
    requires r == Received(s, events[0].peer, events[0].frame, events[0].now) && r.delivered.Some?
    ensures DeliveredIn(s, events, key, sent(key).value)
  {
    ArrivalDelivers(sent, s, events[0]);
    DeliveredNow(s, events, r, sent(key).value);
  }

  /**
   * If every part arrives, in whatever order and however often, and the assembly is neither expired nor evicted, the
   * message is delivered.
   */
  lemma {:induction false} AllPartsDeliver(sent: Sent, s: Assemblies, events: seq<Arrival>, key: Key, n: nat,
                                           got: set<nat>)
    requires Awaiting(sent, s, events, key, n, got)
    ensures DeliveredIn(s, events, key, sent(key).value)
    decreases |events|
  {
    SomethingComes(events, key, n, got);
    var r := Received(s, events[0].peer, events[0].frame, events[0].now);
    if KeyOf(events[0]) == key && r.delivered.Some? {
      AwaitedNow(sent, s, events, key, r);
    } else {
      var got' := AwaitingNext(sent, s, events, key, n, got, r);
      AllPartsDeliver(sent, r.assemblies, events[1..], key, n, got');
      DeliveredLater(s, events, key, sent(key).value);
    }
  }

  lemma SomethingComes(events: seq<Arrival>, key: Key, n: nat, got: set<nat>)
    requires Coming(events, key, n, got)
    ensures events != []
  {
    var i: nat :| i < n && i !in got;
    assert Arrives(events, key, i);
  }

  lemma GoesOn(sent: Sent, s: Assemblies, e: Arrival, key: Key, n: nat, got: set<nat>) returns (got': set<nat>)
    requires AllSound(sent, s) && Honest(sent, e) && sent(key).Some? && n == Parts(sent(key).value.payload) <= MAX_PARTS
    requires Holding(s, key, n, got) && (Find(s, key).Some? ==> Stays(s, Find(s, key).value, e))
    requires exists i: nat :: i < n && i !in got
    requires KeyOf(e) == key ==> Received(s, e.peer, e.frame, e.now).delivered.None?
    ensures got' == if KeyOf(e) == key then got + {e.frame.part} else got
    ensures exists i: nat :: i < n && i !in got'
    ensures Holding(Received(s, e.peer, e.frame, e.now).assemblies, key, n, got')
  {
    HonestIsValid(sent, e);
    if KeyOf(e) == key {
      got' := got + {e.frame.part};
      OwnArrival(sent, s, e, n, got);
    } else {
      got' := got;
      OtherArrival(sent, s, e, key);
    }
  }

  // ---------------------------------------------------------------- the receiving server

  class Reassembler {
    var assemblies: Assemblies

    constructor ()
      ensures assemblies == []
    {
      assemblies := [];
    }

    method ReceiveFrame(peer: Peer, f: Frame, now: nat) returns (complete: Option<Message>)
      modifies this
      ensures Result(assemblies, complete) == Received(old(assemblies), peer, f, now)
    {
      if !Valid(f) { return None; }
      complete := Assemble(peer, f, now);
    }

    method Assemble(peer: Peer, f: Frame, now: nat) returns (complete: Option<Message>)
      requires Valid(f)
      modifies this
      ensures Result(assemblies, complete) == Assembled(old(assemblies), peer, f, now)
    {
      Expire(now);
      if f.total == 1 { return Some(Message(f.header, f.payload)); }
      var assembly := Open(Key(peer, f.messageId), f, now);
      if !Matches(assembly, f) { return None; }
      assembly := Fill(assembly, f, now);
      if assembly.received != |assembly.parts| {
        assemblies := Replaced(assemblies, assembly);
        return None;
      }
      assemblies := Without(assemblies, assembly.key);
      complete := Some(Message(assembly.first.header, Concat(Values(assembly.parts))));
    }

    method Open(key: Key, f: Frame, now: nat) returns (assembly: Assembly)
      modifies this
      ensures (assemblies, assembly) == Opened(old(assemblies), key, f, now)
    {
      var found := Find(assemblies, key);
      if found.Some? { return found.value; }
      if |assemblies| >= MAX_ASSEMBLIES {
        var oldest := FindOldest();
        assemblies := Without(assemblies, oldest.key);
      }
      assembly := Begin(key, f, now);
      assemblies := assemblies + [assembly];
    }

    static method Fill(a: Assembly, f: Frame, now: nat) returns (assembly: Assembly)
      requires f.part < |a.parts|
      ensures assembly == Filled(a, f, now)
    {
      assembly := a.(updatedAt := now);
      if assembly.parts[f.part].None? {
        assembly := assembly.(parts := assembly.parts[f.part := Some(f.payload)], received := assembly.received + 1);
      }
    }

    method Expire(now: nat)
      modifies this
      ensures assemblies == Alive(old(assemblies), now)
    {
      var all := assemblies;
      var kept: Assemblies := [];
      for i := 0 to |all|
        invariant kept == Alive(all[..i], now)
      {
        AliveNext(all, i, now);
        if now - all[i].updatedAt <= ASSEMBLY_TTL_MS { kept := kept + [all[i]]; }
      }
      assert all[..|all|] == all;
      assemblies := kept;
    }

    method FindOldest() returns (oldest: Assembly)
      requires assemblies != []
      ensures oldest == Oldest(assemblies)
    {
      oldest := assemblies[0];
      assert assemblies[..1] == [assemblies[0]];
      for i := 1 to |assemblies|
        invariant oldest == Oldest(assemblies[..i])
      {
        assert assemblies[..i + 1][..i] == assemblies[..i];
        if assemblies[i].updatedAt < oldest.updatedAt { oldest := assemblies[i]; }
      }
      assert assemblies[..|assemblies|] == assemblies;
    }
  }
}
