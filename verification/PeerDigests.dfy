/**
 * src/peer-update.js:126-218, 322-349 with peers that may offer and send anything: what the digest check is worth. A
 * file handle's close waits for the writes under way on it.
 */
module PeerDigests {
  import opened Basics
  import opened PeerUpdate

  /** The offers that may be made at all. */
  type Offers = Offer -> bool

  /** The fetch of this job has no write under way. */
  predicate Quiet(m: Machine, id: Id) {
    forall w :: w in m.writes ==> w.job != id
  }

  /** Any chunk may arrive; a name is new; a close ends once the job is quiet. */
  ghost predicate Allowed(offers: Offers, m: Machine, e: Event) {
    match e
    case Begin(id, offer) => offers(offer) && id !in m.jobs && id !in m.opening
    case Advance(id, _, _) => id in m.jobs && m.jobs[id].phase.Closing? ==> Quiet(m, id)
    case _ => true
  }

  ghost predicate AllowedRun(offers: Offers, m: Machine, events: seq<Event>)
    decreases |events|
  {
    events == [] || (Allowed(offers, m, events[0]) && AllowedRun(offers, Step(m, events[0]), events[1..]))
  }

  // ---------------------------------------------------------------- what every step keeps

  predicate Open(phase: Phase) {
    phase.Fetching? || phase.Closing?
  }

  predicate PhaseSound(job: Job) {
    match job.phase
    case Reading(seen) => seen <= job.file
    case Fetching => true
    case Closing => true
    case Failed => true
    case _ => Sha(job.file) == job.offer.sha256
  }

  ghost predicate JobSound(offers: Offers, job: Job) {
    offers(job.offer) && |job.file| <= job.offset <= job.offer.size && PhaseSound(job)
  }

  /** A write under way ends within what its job has claimed, and the job's file is still open. */
  predicate WriteSound(jobs: map<Id, Job>, w: Write) {
    w.job in jobs && w.offset + |w.data| <= jobs[w.job].offset && Open(jobs[w.job].phase)
  }

  ghost predicate Sound(offers: Offers, m: Machine) {
    && FetchFits(m.jobs, m.fetching)
    && (forall id :: id in m.opening ==> offers(m.opening[id]) && id !in m.jobs)
    && (forall id :: id in m.jobs ==> JobSound(offers, m.jobs[id]))
    && (forall w :: w in m.writes ==> WriteSound(m.jobs, w))
    && TargetsFit(m.jobs, m.targets) && CurrentFits(m.jobs, m.current)
  }

  lemma Replaced(offers: Offers, m: Machine, id: Id, next: Job, m': Machine)
    requires Sound(offers, m) && id in m.jobs && Succeeds(m.jobs[id], next) && JobSound(offers, next)
    requires m' == m.(jobs := m.jobs[id := next], writes := m'.writes, names := m'.names, fetching := m'.fetching,
                      active := m'.active)
    requires forall w :: w in m'.writes ==> (w in m.writes && w.job != id) || WriteSound(m'.jobs, w)
    requires m'.fetching == None || (m'.fetching == m.fetching && (m.fetching == Some(id) ==> next.phase.Fetching?))
    ensures Sound(offers, m')
  {
    PlacesStand(m.jobs, m.targets, m.current, id, next);
    forall w | w in m'.writes ensures WriteSound(m'.jobs, w) {
      if w in m.writes && w.job != id { assert WriteSound(m.jobs, w); }
    }
  }

  /** The job goes on to another phase with its file, while no write is under way or its file stays open. */
  lemma PhaseReplaced(offers: Offers, m: Machine, id: Id, phase: Phase, m': Machine)
    requires Sound(offers, m) && id in m.jobs && PhaseSound(m.jobs[id].(phase := phase))
    requires InPlace(m.jobs[id], m.jobs[id].offer.version) ==> phase.Installed? || phase.Recorded?
    requires Quiet(m, id) || Open(phase)
    requires m' == WithPhase(m.(names := m'.names, fetching := m'.fetching, active := m'.active), id, phase)
    requires m'.fetching == None || (m'.fetching == m.fetching && (m.fetching == Some(id) ==> phase.Fetching?))
    ensures Sound(offers, m')
  {
    forall w | w in m'.writes && w.job == id ensures WriteSound(m'.jobs, w) { assert WriteSound(m.jobs, w); }
    Replaced(offers, m, id, m.jobs[id].(phase := phase), m');
  }

  lemma FinishingSound(offers: Offers, m: Machine, id: Id)
    requires Sound(offers, m) && m.fetching == Some(id)
    ensures Sound(offers, Finishing(m, id))
  {
    PhaseReplaced(offers, m, id, Closing, Finishing(m, id));
  }

  lemma ClaimedSound(offers: Offers, m: Machine, id: Id, w: Write, next: Job, claimed: Machine)
    requires Sound(offers, m) && m.fetching == Some(id) && w.job == id && w.offset == m.jobs[id].offset
    requires w.offset + |w.data| <= m.jobs[id].offer.size
    requires next == m.jobs[id].(offset := w.offset + |w.data|, accepted := m.jobs[id].accepted + [w])
    requires claimed == m.(jobs := m.jobs[id := next], writes := claimed.writes)
    requires claimed.writes == m.writes || claimed.writes == m.writes + {w}
    ensures Sound(offers, claimed)
  {
    forall x | x in claimed.writes && x.job == id ensures WriteSound(claimed.jobs, x) {
      if x in m.writes { assert WriteSound(m.jobs, x); }
    }
    Replaced(offers, m, id, next, claimed);
  }

  lemma TakenSound(offers: Offers, m: Machine, id: Id, c: Chunk)
    requires Sound(offers, m) && m.fetching == Some(id) && Expected(m, c)
    requires c.offset + |c.data| <= m.jobs[id].offer.size
    ensures Sound(offers, Received(m, c))
  {
    var w := Write(id, c.offset, c.data);
    var next := m.jobs[id].(offset := m.jobs[id].offset + |c.data|, accepted := m.jobs[id].accepted + [w]);
    var claimed := m.(jobs := m.jobs[id := next], writes := if c.data == [] then m.writes else m.writes + {w});
    ClaimedSound(offers, m, id, w, next, claimed);
    ReceivedIs(m, c, id, claimed);
    if c.data == [] { FinishingSound(offers, claimed, id); }
  }

  lemma ReceivedSound(offers: Offers, m: Machine, c: Chunk)
    requires Sound(offers, m)
    ensures Sound(offers, Received(m, c))
  {
    if Expected(m, c) && c.offset + |c.data| <= m.jobs[m.fetching.value].offer.size {
      TakenSound(offers, m, m.fetching.value, c);
    }
  }

  lemma AfterWriteSound(offers: Offers, m: Machine, w: Write)
    requires Sound(offers, m)
    ensures Sound(offers, AfterWrite(m, w))
  {
    if w in m.writes && w.job in m.jobs {
      var job := m.jobs[w.job];
      var next := job.(file := Overwrite(job.file, w.offset, w.data));
      var written := m.(writes := m.writes - {w}, jobs := m.jobs[w.job := next]);
      assert WriteSound(m.jobs, w);
      forall x | x in written.writes && x.job == w.job ensures WriteSound(written.jobs, x) {
        assert WriteSound(m.jobs, x);
      }
      Replaced(offers, m, w.job, next, written);
      if m.fetching == Some(w.job) && job.offset >= job.offer.size { FinishingSound(offers, written, w.job); }
    }
  }

  /** Once its file is closed nothing is written to it. */
  lemma ClosedIsQuiet(offers: Offers, m: Machine, id: Id)
    requires Sound(offers, m) && id in m.jobs && !Open(m.jobs[id].phase)
    ensures Quiet(m, id)
  {
    forall w | w in m.writes ensures w.job != id { assert WriteSound(m.jobs, w); }
  }

  lemma ReadSound(offers: Offers, m: Machine, id: Id, n: nat, ok: bool)
    requires Sound(offers, m) && id in m.jobs && m.jobs[id].phase.Reading?
    ensures Sound(offers, Advanced(m, id, n, ok))
  {
    var job, m' := m.jobs[id], Advanced(m, id, n, ok);
    var seen := job.phase.seen;
    assert JobSound(offers, job);
    ClosedIsQuiet(offers, m, id);
    if |seen| < |job.file| {
      var end := if |seen| + n <= |job.file| then |seen| + n else |job.file|;
      assert seen + job.file[|seen|..end] == job.file[..end];
    } else {
      assert seen == job.file;
    }
    PhaseReplaced(offers, m, id, m'.jobs[id].phase, m');
  }

  lemma InstalledSound(offers: Offers, m: Machine, id: Id)
    requires Sound(offers, m) && id in m.jobs && m.jobs[id].phase.Cleared? && id in m.names
    ensures Sound(offers, Advanced(m, id, 0, true))
  {
    var moved := WithPhase(m.(names := m.names - {id}), id, Installed);
    assert JobSound(offers, m.jobs[id]);
    ClosedIsQuiet(offers, m, id);
    PhaseReplaced(offers, m, id, Installed, moved);
  }

  lemma RecordedSound(offers: Offers, m: Machine, id: Id)
    requires Sound(offers, m) && id in m.jobs && m.jobs[id].phase.Installed?
    ensures Sound(offers, Advanced(m, id, 0, true))
  {
    var done, offer := WithPhase(m, id, Recorded), m.jobs[id].offer;
    assert JobSound(offers, m.jobs[id]);
    ClosedIsQuiet(offers, m, id);
    PhaseReplaced(offers, m, id, Recorded, done);
    assert Vouches(done.jobs, id, Record(offer.version, offer.sha256));
  }

  lemma AdvancedSound(offers: Offers, m: Machine, id: Id, n: nat, ok: bool)
    requires Sound(offers, m) && Allowed(offers, m, Advance(id, n, ok))
    ensures Sound(offers, Advanced(m, id, n, ok))
  {
    if id in m.jobs {
      var m' := Advanced(m, id, n, ok);
      assert JobSound(offers, m.jobs[id]);
      if !Open(m.jobs[id].phase) { ClosedIsQuiet(offers, m, id); }
      match m.jobs[id].phase {
        case Closing => PhaseReplaced(offers, m, id, m'.jobs[id].phase, m');
        case Reading(_) => ReadSound(offers, m, id, n, ok);
        case Proven => PhaseReplaced(offers, m, id, m'.jobs[id].phase, m');
        case Executed => PhaseReplaced(offers, m.(targets := m'.targets), id, Cleared, m');
        case Cleared =>
          if id in m.names { InstalledSound(offers, m, id); } else { PhaseReplaced(offers, m, id, Failed, m'); }
        case Installed => RecordedSound(offers, m, id);
        case _ =>
      }
    }
  }

  lemma OpenedSound(offers: Offers, m: Machine, id: Id)
    requires Sound(offers, m)
    ensures Sound(offers, AfterOpen(m, id))
  {
    if id in m.opening {
      var m' := AfterOpen(m, id);
      forall w | w in m.writes ensures WriteSound(m'.jobs, w) { assert WriteSound(m.jobs, w); }
      if m.current.Some? {
        var i :| Vouches(m.jobs, i, m.current.value);
        assert Vouches(m'.jobs, i, m.current.value);
      }
    }
  }

  lemma StepSound(offers: Offers, m: Machine, e: Event)
    requires Sound(offers, m) && Allowed(offers, m, e)
    ensures Sound(offers, Step(m, e))
  {
    match e {
      case Begin(id, offer) =>
      case Opened(id) => OpenedSound(offers, m, id);
      case Receive(chunk) => ReceivedSound(offers, m, chunk);
      case WriteDone(write) => AfterWriteSound(offers, m, write);
      case Advance(id, n, ok) => AdvancedSound(offers, m, id, n, ok);
      case Abandon =>
      case AbandonClosed =>
      case AbandonRemoved =>
    }
  }

  lemma {:induction false} RunSound(offers: Offers, m: Machine, events: seq<Event>)
    requires Sound(offers, m) && AllowedRun(offers, m, events)
    ensures Sound(offers, Run(m, events))
    decreases |events|
  {
    if events != [] {
      StepSound(offers, m, events[0]);
      RunSound(offers, Step(m, events[0]), events[1..]);
    }
  }

  /** Whatever peers send, what gets installed has the digest its offer named. */
  lemma OnlyOfferedDigests(offers: Offers, events: seq<Event>, v: Version)
    requires AllowedRun(offers, IDLE, events) && v in Run(IDLE, events).targets
    ensures var m := Run(IDLE, events);
            && m.targets[v] in m.jobs
            && var job := m.jobs[m.targets[v]];
               offers(job.offer) && job.offer.version == v && Sha(job.file) == job.offer.sha256
  {
    RunSound(offers, IDLE, events);
    var m := Run(IDLE, events);
    assert JobSound(offers, m.jobs[m.targets[v]]);
  }

  // ---------------------------------------------------------------- current.json

  /** Some content of no more than the offered size has the offered digest. */
  predicate Installable(o: Offer) {
    |o.sha256.data| <= o.size
  }

  ghost predicate OneDigest(offers: Offers) {
    forall a, b :: offers(a) && offers(b) && Installable(a) && Installable(b) && a.version == b.version ==>
      a.sha256 == b.sha256
  }

  lemma InPlaceIsInstallable(offers: Offers, job: Job, v: Version)
    requires JobSound(offers, job) && InPlace(job, v)
    ensures offers(job.offer) && Installable(job.offer) && job.offer.version == v && Sha(job.file) == job.offer.sha256
  {}

  lemma OneDigestMatches(offers: Offers, m: Machine)
    requires Sound(offers, m) && OneDigest(offers)
    ensures Matched(m)
  {
    if m.current.Some? && m.current.value.version in m.targets {
      var v := m.current.value.version;
      var i :| Vouches(m.jobs, i, m.current.value);
      InPlaceIsInstallable(offers, m.jobs[m.targets[v]], v);
      InPlaceIsInstallable(offers, m.jobs[i], v);
    }
  }

  // ---------------------------------------------------------------- a run that breaks it

  lemma {:induction false} AllowedJoin(offers: Offers, m: Machine, a: seq<Event>, e: Event)
    requires AllowedRun(offers, m, a) && Allowed(offers, Run(m, a), e)
    ensures AllowedRun(offers, m, a + [e]) && Run(m, a + [e]) == Step(Run(m, a), e)
    decreases |a|
  {
    if a == [] {
      assert a + [e] == [e] && [e][1..] == [];
      assert Run(Step(m, e), []) == Step(m, e);
    } else {
      assert (a + [e])[1..] == a[1..] + [e];
      AllowedJoin(offers, Step(m, a[0]), a[1..], e);
    }
  }

  ghost predicate Arrives(offers: Offers, events: seq<Event>, m: Machine) {
    AllowedRun(offers, IDLE, events) && Run(IDLE, events) == m
  }

  lemma Onward(offers: Offers, events: seq<Event>, m: Machine, e: Event, m': Machine) returns (longer: seq<Event>)
    requires Arrives(offers, events, m) && Allowed(offers, m, e) && m' == Step(m, e)
    ensures Arrives(offers, longer, m')
  {
    AllowedJoin(offers, IDLE, events, e);
    longer := events + [e];
  }

  /**
   * From rest: the fetch is begun, all the content comes in one chunk and is written, an empty one ends it if need be.
   */
  lemma Fetched(offers: Offers, before: seq<Event>, m: Machine, id: Id, o: Offer)
    returns (events: seq<Event>, m': Machine)
    requires Arrives(offers, before, m) && AtRest(m, id) && offers(o) && Installable(o)
    ensures Arrives(offers, events, m') && AtRest(m'.(jobs := m.jobs), id)
    ensures id in m'.jobs && id in m'.names && m'.jobs == m.jobs[id := m'.jobs[id]]
    ensures m'.jobs[id].phase == Closing && m'.jobs[id].file == o.sha256.data && m'.jobs[id].offer == o
    ensures m'.targets == m.targets && m'.current == m.current && m'.opening == m.opening
  {
    var started;
    events, started := Started(offers, before, m, id, o);
    var data := o.sha256.data;
    if data == [] {
      m' := Step(started, Receive(Chunk(o.peer, o.version, 0, [], true)));
      events := Onward(offers, events, started, Receive(Chunk(o.peer, o.version, 0, [], true)), m');
    } else {
      events, m' := Filled(offers, events, started, id, o);
    }
  }

  lemma Started(offers: Offers, before: seq<Event>, m: Machine, id: Id, o: Offer)
    returns (events: seq<Event>, m': Machine)
    requires Arrives(offers, before, m) && AtRest(m, id) && offers(o)
    ensures Arrives(offers, events, m')
    ensures m' == m.(active := true, fetching := Some(id), names := m.names + {id},
                     jobs := m.jobs[id := Job(o, 0, [], [], Fetching)])
  {
    var begun := Step(m, Begin(id, o));
    events := Onward(offers, before, m, Begin(id, o), begun);
    m' := Step(begun, Opened(id));
    assert begun.opening - {id} == m.opening;
    events := Onward(offers, events, begun, Opened(id), m');
  }

  lemma Filled(offers: Offers, before: seq<Event>, m: Machine, id: Id, o: Offer)
    returns (events: seq<Event>, m': Machine)
    requires Arrives(offers, before, m) && m.fetching == Some(id) && m.writes == {} && Installable(o)
    requires id in m.jobs && m.jobs[id] == Job(o, 0, [], [], Fetching) && o.sha256.data != []
    ensures Arrives(offers, events, m')
    ensures id in m'.jobs && m' == m.(fetching := None, active := false, jobs := m.jobs[id := m'.jobs[id]])
    ensures m'.jobs[id].phase == Closing && m'.jobs[id].file == o.sha256.data && m'.jobs[id].offer == o
  {
    var data := o.sha256.data;
    var c, w := Chunk(o.peer, o.version, 0, data, true), Write(id, 0, data);
    var m1 := Step(m, Receive(c));
    assert m.writes + {w} == {w};
    events := Onward(offers, before, m, Receive(c), m1);
    var m2 := Step(m1, WriteDone(w));
    assert Overwrite([], 0, data) == data;
    assert {w} - {w} == {};
    events := Onward(offers, events, m1, WriteDone(w), m2);
    m' := m2;
    if |data| < o.size {
      var end := Chunk(o.peer, o.version, |data|, [], true);
      m' := Step(m2, Receive(end));
      events := Onward(offers, events, m2, Receive(end), m');
    }
  }

  lemma GoesOn(offers: Offers, events: seq<Event>, m: Machine, id: Id, from: Phase, n: nat, to: Phase)
    returns (longer: seq<Event>)
    requires id in m.jobs && id in m.names && m.writes == {} && Sha(m.jobs[id].file) == m.jobs[id].offer.sha256
    requires Leads(from, n, to, m.jobs[id].file) && Arrives(offers, events, WithPhase(m, id, from))
    ensures Arrives(offers, longer, WithPhase(m, id, to))
  {
    NextPhase(m, id, from, n, to);
    longer := Onward(offers, events, WithPhase(m, id, from), Advance(id, n, true), WithPhase(m, id, to));
  }

  /** Closed, read whole, found right and run. */
  lemma Ran(offers: Offers, before: seq<Event>, m: Machine, id: Id) returns (events: seq<Event>)
    requires Arrives(offers, before, m) && id in m.jobs && m.jobs[id].phase == Closing && id in m.names
    requires m.writes == {} && Sha(m.jobs[id].file) == m.jobs[id].offer.sha256
    ensures Arrives(offers, events, WithPhase(m, id, Executed))
  {
    var file := m.jobs[id].file;
    assert WithPhase(m, id, Closing) == m;
    events := GoesOn(offers, before, m, id, Closing, 0, Reading([]));
    if file != [] { events := GoesOn(offers, events, m, id, Reading([]), |file|, Reading(file)); }
    events := GoesOn(offers, events, m, id, Reading(file), 0, Proven);
    events := GoesOn(offers, events, m, id, Proven, 0, Executed);
  }

  /** Its place cleared, moved in. */
  lemma MovedIn(offers: Offers, before: seq<Event>, m: Machine, id: Id) returns (events: seq<Event>)
    requires id in m.jobs && id in m.names && Arrives(offers, before, WithPhase(m, id, Executed))
    ensures Arrives(offers, events, Placed(m, id))
  {
    var v := m.jobs[id].offer.version;
    var executed, cleared := WithPhase(m, id, Executed), WithPhase(m, id, Cleared).(targets := m.targets - {v});
    assert cleared.jobs == executed.jobs[id := executed.jobs[id].(phase := Cleared)];
    events := Onward(offers, before, executed, Advance(id, 0, true), cleared);
    assert cleared.targets[v := id] == m.targets[v := id];
    assert Placed(m, id).jobs == cleared.jobs[id := cleared.jobs[id].(phase := Installed)];
    events := Onward(offers, events, cleared, Advance(id, 0, true), Placed(m, id));
  }

  lemma TwoDigests(offers: Offers, a: Offer, b: Offer) returns (events: seq<Event>)
    requires offers(a) && offers(b) && Installable(a) && Installable(b) && a.version == b.version
    requires a.sha256 != b.sha256
    ensures AllowedRun(offers, IDLE, events) && !Matched(Run(IDLE, events))
  {
    var m1, m3;
    assert Arrives(offers, [], IDLE);
    events, m1 := Fetched(offers, [], IDLE, 0, a);
    events := Ran(offers, events, m1, 0);
    events := MovedIn(offers, events, m1, 0);
    var placed := Placed(m1, 0);
    var m2 := Step(placed, Advance(0, 0, true));
    events := Onward(offers, events, placed, Advance(0, 0, true), m2);
    events, m3 := Fetched(offers, events, m2, 1, b);
    events := Ran(offers, events, m3, 1);
    events := MovedIn(offers, events, m3, 1);
  }

  /**
   * Whatever chunks arrive, current.json records in every run the digest of the file it points at, exactly when all
   * offers of one version that can be met at all carry one digest.
   */
  lemma CurrentMatchesExactlyWhen(offers: Offers)
    ensures (forall events :: AllowedRun(offers, IDLE, events) ==> Matched(Run(IDLE, events))) <==> OneDigest(offers)
  {
    if OneDigest(offers) {
      forall events | AllowedRun(offers, IDLE, events) ensures Matched(Run(IDLE, events)) {
        RunSound(offers, IDLE, events);
        OneDigestMatches(offers, Run(IDLE, events));
      }
    } else {
      var a, b :| offers(a) && offers(b) && Installable(a) && Installable(b) && a.version == b.version
                  && a.sha256 != b.sha256;
      var events := TwoDigests(offers, a, b);
    }
  }
}
