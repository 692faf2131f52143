/**
 * How many fetches run at once (src/peer-update.js:126-146, 178-193): one, as long as no abandonment frees the slot
 * that another fetch has taken by then.
 */
module PeerSlots {
  import opened Basics
  import opened PeerUpdate

  /** The fetches whose file is being opened, and the one being fetched. */
  function Fetches(m: Machine): nat {
    |m.opening| + if m.fetching.Some? then 1 else 0
  }

  /** At most one fetch, and the machine-wide flag is up exactly while there is one. */
  predicate Single(m: Machine) {
    Fetches(m) <= 1 && (m.active <==> Fetches(m) == 1)
  }

  /** Temporary names do not repeat. */
  predicate NewName(m: Machine, e: Event) {
    e.Begin? ==> e.id !in m.jobs && e.id !in m.opening
  }

  predicate NewNames(m: Machine, events: seq<Event>)
    decreases |events|
  {
    events == [] || (NewName(m, events[0]) && NewNames(Step(m, events[0]), events[1..]))
  }

  /** An abandonment ends and frees the slot while a fetch that began since is opening its file. */
  predicate FreesAnother(m: Machine, e: Event) {
    e.AbandonRemoved? && m.removing > 0 && m.fetching.None? && m.opening != map[]
  }

  // ---------------------------------------------------------------- one step

  lemma OnlyMember<T>(s: set<T>, x: T)
    requires |s| == 1 && x in s
    ensures s == {x}
  {
    assert |s - {x}| == 0;
    assert s == (s - {x}) + {x};
  }

  lemma OneOpening(m: Machine, id: Id)
    requires |m.opening| == 1 && id in m.opening
    ensures m.opening == map[id := m.opening[id]] && |m.opening - {id}| == 0
  {
    assert |m.opening.Keys| == 1;
    OnlyMember(m.opening.Keys, id);
    assert m.opening - {id} == map[];
  }

  lemma NoneOpening(m: Machine)
    ensures |m.opening| == 0 <==> m.opening == map[]
  {}

  lemma OneMore(opening: map<Id, Offer>, id: Id, offer: Offer)
    requires id !in opening
    ensures |opening[id := offer]| == |opening| + 1
  {
    assert opening[id := offer].Keys == opening.Keys + {id};
  }

  /** A fetch begins exactly when there is none. */
  lemma BeginsExactlyWhenFree(m: Machine, id: Id, offer: Offer)
    requires Single(m) && id !in m.opening
    ensures id in Begun(m, id, offer).opening <==> Fetches(m) == 0
    ensures Fetches(m) == 0 ==> Fetches(Begun(m, id, offer)) == 1
    ensures Fetches(m) == 1 ==> Begun(m, id, offer) == m
  {
    OneMore(m.opening, id, offer);
  }

  /** From a state with one fetch at most, a step leads to another unless an abandonment frees another's slot. */
  lemma StepIsSingleExactlyWhen(m: Machine, e: Event)
    requires Single(m) && NewName(m, e) && FetchFits(m.jobs, m.fetching)
    ensures Single(Step(m, e)) <==> !FreesAnother(m, e)
    ensures FetchFits(Step(m, e).jobs, Step(m, e).fetching)
  {
    match e
    case Begin(id, offer) => BeginsExactlyWhenFree(m, id, offer);
    case Opened(id) => if id in m.opening { OneOpening(m, id); }
    case Receive(chunk) => ReceivedKeepsSlot(m, chunk);
    case WriteDone(write) => WrittenKeepsSlot(m, write);
    case Advance(id, n, ok) => AdvancedKeepsSlot(m, id, n, ok);
    case Abandon =>
    case AbandonClosed =>
    case AbandonRemoved => NoneOpening(m);
  }

  /** The slot is kept, or freed by the fetch that holds it. */
  predicate SlotKept(m: Machine, m': Machine) {
    && m'.opening == m.opening
    && ((m'.fetching == m.fetching && m'.active == m.active)
        || (m.fetching.Some? && m'.fetching.None? && !m'.active))
  }

  lemma ReceivedKeepsSlot(m: Machine, c: Chunk)
    requires FetchFits(m.jobs, m.fetching)
    ensures SlotKept(m, Received(m, c)) && FetchFits(Received(m, c).jobs, Received(m, c).fetching)
  {}

  lemma WrittenKeepsSlot(m: Machine, w: Write)
    requires FetchFits(m.jobs, m.fetching)
    ensures SlotKept(m, AfterWrite(m, w)) && FetchFits(AfterWrite(m, w).jobs, AfterWrite(m, w).fetching)
  {}

  lemma AdvancedKeepsSlot(m: Machine, id: Id, n: nat, ok: bool)
    requires FetchFits(m.jobs, m.fetching)
    ensures SlotKept(m, Advanced(m, id, n, ok))
    ensures FetchFits(Advanced(m, id, n, ok).jobs, Advanced(m, id, n, ok).fetching)
  {}

  // ---------------------------------------------------------------- whole runs

  predicate AlwaysSingle(m: Machine, events: seq<Event>)
    decreases |events|
  {
    Single(m) && (events == [] || AlwaysSingle(Step(m, events[0]), events[1..]))
  }

  predicate NeverFreesAnother(m: Machine, events: seq<Event>)
    decreases |events|
  {
    events == [] || (!FreesAnother(m, events[0]) && NeverFreesAnother(Step(m, events[0]), events[1..]))
  }

  lemma {:induction false} RunIsSingleExactlyWhen(m: Machine, events: seq<Event>)
    requires Single(m) && NewNames(m, events) && FetchFits(m.jobs, m.fetching)
    ensures AlwaysSingle(m, events) <==> NeverFreesAnother(m, events)
    decreases |events|
  {
    if events != [] {
      StepIsSingleExactlyWhen(m, events[0]);
      if Single(Step(m, events[0])) { RunIsSingleExactlyWhen(Step(m, events[0]), events[1..]); }
    }
  }

  /**
   * Over every run there is never more than one fetch, and the flag is up exactly while there is one, exactly when no
   * abandonment ends while a fetch that began since is opening its file.
   */
  lemma OneFetchExactlyWhen(events: seq<Event>)
    requires NewNames(IDLE, events)
    ensures AlwaysSingle(IDLE, events) <==> NeverFreesAnother(IDLE, events)
  {
    RunIsSingleExactlyWhen(IDLE, events);
  }

  /** A fetch begins beside another whose slot has been freed while it is opening its file. */
  predicate Intrudes(m: Machine, e: Event) {
    e.Begin? && m.opening != map[] && m.fetching.None? && !m.active
  }

  lemma StepDoublesExactlyWhen(m: Machine, e: Event)
    requires Fetches(m) <= 1 && NewName(m, e) && FetchFits(m.jobs, m.fetching)
    ensures Fetches(Step(m, e)) > 1 <==> Intrudes(m, e)
    ensures FetchFits(Step(m, e).jobs, Step(m, e).fetching)
  {
    NoneOpening(m);
    match e
    case Begin(id, offer) => OneMore(m.opening, id, offer);
    case Opened(id) => if id in m.opening { OneOpening(m, id); }
    case Receive(chunk) => ReceivedKeepsSlot(m, chunk);
    case WriteDone(write) => WrittenKeepsSlot(m, write);
    case Advance(id, n, ok) => AdvancedKeepsSlot(m, id, n, ok);
    case Abandon =>
    case AbandonClosed =>
    case AbandonRemoved =>
  }

  predicate NeverTwo(m: Machine, events: seq<Event>)
    decreases |events|
  {
    Fetches(m) <= 1 && (events == [] || NeverTwo(Step(m, events[0]), events[1..]))
  }

  predicate NeverIntrudes(m: Machine, events: seq<Event>)
    decreases |events|
  {
    events == [] || (!Intrudes(m, events[0]) && NeverIntrudes(Step(m, events[0]), events[1..]))
  }

  /** Two fetches run at once exactly when one begins so. */
  lemma {:induction false} TwoFetchesExactlyWhen(m: Machine, events: seq<Event>)
    requires Fetches(m) <= 1 && NewNames(m, events) && FetchFits(m.jobs, m.fetching)
    ensures NeverTwo(m, events) <==> NeverIntrudes(m, events)
    decreases |events|
  {
    if events != [] {
      StepDoublesExactlyWhen(m, events[0]);
      if Fetches(Step(m, events[0])) <= 1 { TwoFetchesExactlyWhen(Step(m, events[0]), events[1..]); }
    }
  }

  /** And that takes an abandonment that freed another's slot before. */
  lemma {:induction false} IntrusionNeedsFreedSlot(m: Machine, events: seq<Event>)
    requires AlwaysSingle(m, events)
    ensures NeverIntrudes(m, events) && NeverTwo(m, events)
    decreases |events|
  {
    NoneOpening(m);
    if events != [] { IntrusionNeedsFreedSlot(Step(m, events[0]), events[1..]); }
  }

  // ---------------------------------------------------------------- when that can happen

  /** The abandonments past their close do not overlap, and the fetch does not end by itself meanwhile. */
  predicate Undisturbed(m: Machine, e: Event) {
    && (e.AbandonClosed? && m.closing > 0 && m.fetching.Some? ==> m.removing == 0)
    && (m.removing > 0 && !e.AbandonRemoved? ==> Step(m, e).fetching == m.fetching)
  }

  predicate UndisturbedRun(m: Machine, events: seq<Event>)
    decreases |events|
  {
    events == [] || (Undisturbed(m, events[0]) && UndisturbedRun(Step(m, events[0]), events[1..]))
  }

  /** Removing the abandoned file, at most once at a time, while its fetch still holds the slot. */
  predicate HoldsSlot(m: Machine) {
    m.removing <= 1 && (m.removing == 1 ==> m.fetching.Some?)
  }

  lemma {:induction false} UndisturbedIsSingle(m: Machine, events: seq<Event>)
    requires Single(m) && HoldsSlot(m) && FetchFits(m.jobs, m.fetching)
    requires NewNames(m, events) && UndisturbedRun(m, events)
    ensures AlwaysSingle(m, events)
    decreases |events|
  {
    if events != [] {
      StepIsSingleExactlyWhen(m, events[0]);
      UndisturbedStep(m, events[0]);
      UndisturbedIsSingle(Step(m, events[0]), events[1..]);
    }
  }

  lemma UndisturbedStep(m: Machine, e: Event)
    requires HoldsSlot(m) && Undisturbed(m, e) && FetchFits(m.jobs, m.fetching)
    ensures HoldsSlot(Step(m, e)) && !FreesAnother(m, e)
  {
    match e
    case Begin(id, offer) =>
    case Opened(id) =>
    case Receive(chunk) => ReceivedKeepsRest(m, chunk);
    case WriteDone(write) =>
    case Advance(id, n, ok) =>
    case Abandon =>
    case AbandonClosed =>
    case AbandonRemoved =>
  }

  lemma ReceivedKeepsRest(m: Machine, c: Chunk)
    ensures Received(m, c).removing == m.removing
  {}

  // ---------------------------------------------------------------- and then the next

  /** A fetch ends by itself when its job goes on to its close, or by an abandonment that frees its slot. */
  predicate EndsFetch(m: Machine, e: Event) {
    m.fetching.Some? &&
    if e.AbandonRemoved? then m.removing > 0
    else m.fetching.value in m.jobs && m.jobs[m.fetching.value].phase.Fetching?
         && m.fetching.value in Step(m, e).jobs && Step(m, e).jobs[m.fetching.value].phase.Closing?
  }

  /** After every finished or abandoned fetch the slot is free and the next begins. */
  lemma NextBegins(m: Machine, e: Event, id: Id, offer: Offer)
    requires Single(m) && NewName(m, e) && FetchFits(m.jobs, m.fetching) && EndsFetch(m, e)
    requires id !in Step(m, e).opening
    ensures Fetches(Step(m, e)) == 0 && id in Begun(Step(m, e), id, offer).opening
  {
    StepIsSingleExactlyWhen(m, e);
    NoneOpening(m);
    EndFreesSlot(m, e);
    BeginsExactlyWhenFree(Step(m, e), id, offer);
  }

  lemma EndFreesSlot(m: Machine, e: Event)
    requires FetchFits(m.jobs, m.fetching) && EndsFetch(m, e) && m.opening == map[]
    ensures Step(m, e).fetching.None? && Step(m, e).opening == map[]
  {
    match e
    case Begin(id, offer) =>
    case Opened(id) =>
    case Receive(chunk) => ReceivedKeepsSlot(m, chunk);
    case WriteDone(write) => WrittenKeepsSlot(m, write);
    case Advance(id, n, ok) =>
    case Abandon =>
    case AbandonClosed =>
    case AbandonRemoved =>
  }

  // ---------------------------------------------------------------- the inputs

  lemma RunStep(m: Machine, events: seq<Event>, k: nat)
    requires k < |events|
    ensures Run(m, events[k..]) == Run(Step(m, events[k]), events[k + 1..])
  {
    assert events[k..][1..] == events[k + 1..] && events[k..][0] == events[k];
  }

  /** A fetch opened and being abandoned, so many removals under way. */
  function Leaving(o: Offer, removing: nat): Machine {
    IDLE.(fetching := Some(0), active := true, jobs := map[0 := Job(o, 0, [], [], Fetching)], removing := removing)
  }

  /** Of two abandonments at once the second frees the slot of the fetch begun after the first: two more begin. */
  lemma TwoAbandonmentsBreakIt(o: Offer, m: Machine, events: seq<Event>)
    requires m == Leaving(o, 2)
    requires events == [AbandonRemoved, Begin(1, o), AbandonRemoved, Begin(2, o)]
    ensures Fetches(Run(m, events)) == 2
  {
    assert events[0..] == events && events[4..] == [];
    RunStep(m, events, 0);
    var m1 := Step(m, events[0]);
    RunStep(m1, events, 1);
    var m2 := Step(m1, events[1]);
    RunStep(m2, events, 2);
    var m3 := Step(m2, events[2]);
    RunStep(m3, events, 3);
    OneMore(map[], 1, o);
    OneMore(m3.opening, 2, o);
  }

  /** So does one, when the fetch it abandons finishes before the removal is over. */
  lemma LateFinishBreaksIt(o: Offer, m: Machine, events: seq<Event>)
    requires m == Leaving(o, 1)
    requires events == [Receive(Chunk(o.peer, o.version, 0, [], true)), Begin(1, o), AbandonRemoved, Begin(2, o)]
    ensures Fetches(Run(m, events)) == 2
  {
    assert events[0..] == events && events[4..] == [];
    RunStep(m, events, 0);
    var m1 := Step(m, events[0]);
    RunStep(m1, events, 1);
    var m2 := Step(m1, events[1]);
    RunStep(m2, events, 2);
    var m3 := Step(m2, events[2]);
    RunStep(m3, events, 3);
    OneMore(map[], 1, o);
    OneMore(m3.opening, 2, o);
  }

  lemma OpenedIs(o: Offer, m: Machine)
    requires m == Step(Step(IDLE, Begin(0, o)), Opened(0))
    ensures m == Leaving(o, 0).(names := {0})
  {
    assert IDLE.opening[0 := o] - {0} == map[];
  }

  /** Both states are reached from rest. */
  lemma LeavingIsReached(o: Offer, events: seq<Event>)
    requires events == [Begin(0, o), Opened(0), Abandon, AbandonClosed]
    ensures Run(IDLE, events) == Leaving(o, 1)
  {
    assert events[0..] == events && events[4..] == [];
    var m1 := Step(IDLE, events[0]);
    var m2 := Step(m1, events[1]);
    OpenedIs(o, m2);
    RunStep(IDLE, events, 0);
    RunStep(m1, events, 1);
    RunStep(m2, events, 2);
    RunStep(Step(m2, events[2]), events, 3);
    assert {0} - {0} == {};
  }

  lemma LeavingTwiceIsReached(o: Offer, events: seq<Event>)
    requires events == [Begin(0, o), Opened(0), Abandon, Abandon, AbandonClosed, AbandonClosed]
    ensures Run(IDLE, events) == Leaving(o, 2)
  {
    assert events[0..] == events && events[6..] == [];
    var m1 := Step(IDLE, events[0]);
    var m2 := Step(m1, events[1]);
    OpenedIs(o, m2);
    var m4 := m2.(closing := 2);
    assert Step(Step(m2, events[2]), events[3]) == m4;
    RunStep(IDLE, events, 0);
    RunStep(m1, events, 1);
    RunStep(m2, events, 2);
    RunStep(Step(m2, events[2]), events, 3);
    RunStep(m4, events, 4);
    RunStep(Step(m4, events[4]), events, 5);
    assert ({0} - {0}) - {0} == {};
  }
}
