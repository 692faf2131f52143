/**
 * src/peer-update.js:126-218, 296-354: fetching an executable from a peer, chunk by chunk, over a mesh that
 * may lose, repeat and reorder messages, while file writes complete in any order.
 */
module PeerUpdate {
  import opened Basics

  type Peer = string
  type Version = string
  /** The random name of a temporary file, which stands for the fetch writing it. */
  type Id = nat

  const CHUNK_BYTES: nat := 16 * 1024

  datatype Offer = Offer(peer: Peer, version: Version, size: nat, sha256: Digest)
  datatype Chunk = Chunk(peer: Peer, version: Version, offset: nat, data: Bytes, encrypted: bool)
  datatype Write = Write(job: Id, offset: nat, data: Bytes)
  datatype Record = Record(version: Version, sha256: Digest)

  /** How far a finished fetch has come on its way to being installed. */
  datatype Phase = Fetching | Closing | Reading(seen: Bytes) | Proven | Executed | Cleared | Installed | Recorded
    | Failed

  /** `file` is what its temporary holds, under whatever name; `accepted` lists the chunks taken, in order. */
  datatype Job = Job(offer: Offer, offset: nat, file: Bytes, accepted: seq<Write>, phase: Phase)

  datatype Machine = Machine(
    fetching: Option<Id>, active: bool, opening: map<Id, Offer>, jobs: map<Id, Job>, names: set<Id>,
    writes: set<Write>, closing: nat, removing: nat, targets: map<Version, Id>, current: Option<Record>)

  const IDLE := Machine(None, false, map[], map[], {}, {}, 0, 0, map[], None)

  /** The slice a peer sends for an offset of its own executable. */
  function Served(exe: Bytes, offset: nat): Option<Bytes> {
    if offset > |exe| then None
    else
      var length := if CHUNK_BYTES <= |exe| - offset then CHUNK_BYTES else |exe| - offset;
      Some(exe[offset..offset + length])
  }

  /** A positioned write; a gap before it reads as zeros. */
  function Overwrite(file: Bytes, offset: nat, data: Bytes): Bytes {
    var end := offset + |data|;
    seq(if |file| < end then end else |file|, k requires 0 <= k =>
      if offset <= k < end then data[k - offset] else if k < |file| then file[k] else 0)
  }

  // ---------------------------------------------------------------- the steps

  datatype Event =
    | Begin(id: Id, offer: Offer)
    | Opened(id: Id)
    | Receive(chunk: Chunk)
    | WriteDone(write: Write)
    | Advance(id: Id, n: nat, ok: bool)
    | Abandon
    | AbandonClosed
    | AbandonRemoved

  function Begun(m: Machine, id: Id, offer: Offer): Machine {
    if m.fetching.Some? || m.active then m else m.(active := true, opening := m.opening[id := offer])
  }

  function AfterOpen(m: Machine, id: Id): Machine {
    if id !in m.opening then m
    else m.(opening := m.opening - {id}, fetching := Some(id), names := m.names + {id},
            jobs := m.jobs[id := Job(m.opening[id], 0, [], [], Fetching)])
  }

  function WithPhase(m: Machine, id: Id, phase: Phase): Machine
    requires id in m.jobs
  {
    m.(jobs := m.jobs[id := m.jobs[id].(phase := phase)])
  }

  function Finishing(m: Machine, id: Id): Machine
    requires id in m.jobs
  {
    WithPhase(m.(fetching := None, active := false), id, Closing)
  }

  function Abandoning(m: Machine): Machine {
    if m.fetching.None? then m else m.(closing := m.closing + 1)
  }

  predicate Expected(m: Machine, c: Chunk) {
    && m.fetching.Some? && m.fetching.value in m.jobs && c.encrypted
    && var job := m.jobs[m.fetching.value];
       c.peer == job.offer.peer && c.version == job.offer.version && c.offset == job.offset
  }

  function Received(m: Machine, c: Chunk): Machine {
    if !Expected(m, c) then m
    else
      var id := m.fetching.value;
      var job := m.jobs[id];
      if c.offset + |c.data| > job.offer.size then Abandoning(m)
      else
        var write := Write(id, c.offset, c.data);
        var next := job.(offset := job.offset + |c.data|, accepted := job.accepted + [write]);
        var claimed := m.(jobs := m.jobs[id := next]);
        if c.data == [] then Finishing(claimed, id) else claimed.(writes := m.writes + {write})
  }

  function AfterWrite(m: Machine, w: Write): Machine {
    if w !in m.writes || w.job !in m.jobs then m
    else
      var job := m.jobs[w.job];
      var written := m.(writes := m.writes - {w},
                        jobs := m.jobs[w.job := job.(file := Overwrite(job.file, w.offset, w.data))]);
      if m.fetching == Some(w.job) && job.offset >= job.offer.size then Finishing(written, w.job) else written
  }

  /** One step of the installation; `n` is how much a read returns, `ok` whether the binary runs. */
  function Advanced(m: Machine, id: Id, n: nat, ok: bool): Machine {
    if id !in m.jobs then m
    else
      var job := m.jobs[id];
      match job.phase
      case Closing => WithPhase(m, id, if id in m.names then Reading([]) else Failed)
      case Reading(seen) =>
        if |seen| < |job.file| then
          var end := if |seen| + n <= |job.file| then |seen| + n else |job.file|;
          WithPhase(m, id, Reading(seen + job.file[|seen|..end]))
        else if Sha(seen) == job.offer.sha256 then WithPhase(m, id, Proven)
        else WithPhase(m.(names := m.names - {id}), id, Failed)
      case Proven => WithPhase(m, id, if ok then Executed else Failed)
      case Executed => WithPhase(m.(targets := m.targets - {job.offer.version}), id, Cleared)
      case Cleared =>
        if id in m.names
        then WithPhase(m.(names := m.names - {id}, targets := m.targets[job.offer.version := id]), id, Installed)
        else WithPhase(m, id, Failed)
      case Installed => WithPhase(m.(current := Some(Record(job.offer.version, job.offer.sha256))), id, Recorded)
      case _ => m
  }

  /** The abandoned file is whichever is being fetched once the close is over. */
  function AbandonUnlinked(m: Machine): Machine {
    if m.closing == 0 then m
    else if m.fetching.None? then m.(closing := m.closing - 1)
    else m.(closing := m.closing - 1, removing := m.removing + 1, names := m.names - {m.fetching.value})
  }

  function AbandonDone(m: Machine): Machine {
    if m.removing == 0 then m else m.(removing := m.removing - 1, fetching := None, active := false)
  }

  function Step(m: Machine, e: Event): Machine {
    match e
    case Begin(id, offer) => Begun(m, id, offer)
    case Opened(id) => AfterOpen(m, id)
    case Receive(chunk) => Received(m, chunk)
    case WriteDone(write) => AfterWrite(m, write)
    case Advance(id, n, ok) => Advanced(m, id, n, ok)
    case Abandon => Abandoning(m)
    case AbandonClosed => AbandonUnlinked(m)
    case AbandonRemoved => AbandonDone(m)
  }

  function Run(m: Machine, events: seq<Event>): Machine
    decreases |events|
  {
    if events == [] then m else Run(Step(m, events[0]), events[1..])
  }

  // ---------------------------------------------------------------- honest peers

  /** The executable behind each peer's offer of a version. */
  type Builds = (Peer, Version) -> Bytes

  ghost predicate HonestOffer(builds: Builds, o: Offer) {
    var exe := builds(o.peer, o.version);
    0 < o.size == |exe| && o.sha256 == Sha(exe)
  }

  /**
   * Chunks say what the peer's executable holds, offers describe it, temporary names do not repeat. Any
   * chunk ever served may arrive at any time, any number of times, or never.
   */
  ghost predicate Honest(builds: Builds, m: Machine, e: Event) {
    match e
    case Begin(id, offer) => HonestOffer(builds, offer) && id !in m.jobs && id !in m.opening
    case Receive(chunk) => Served(builds(chunk.peer, chunk.version), chunk.offset) == Some(chunk.data)
    case _ => true
  }

  ghost predicate HonestRun(builds: Builds, m: Machine, events: seq<Event>)
    decreases |events|
  {
    events == [] || (Honest(builds, m, events[0]) && HonestRun(builds, Step(m, events[0]), events[1..]))
  }

  // ---------------------------------------------------------------- what every step keeps

  function Exe(builds: Builds, job: Job): Bytes {
    builds(job.offer.peer, job.offer.version)
  }

  /** The accepted chunks follow one another from the start of the executable up to the offset. */
  ghost predicate Tiles(accepted: seq<Write>, exe: Bytes, offset: nat)
    decreases |accepted|
  {
    if accepted == [] then offset == 0
    else
      var w := accepted[|accepted| - 1];
      && offset == w.offset + |w.data| <= |exe| && w.data == exe[w.offset..offset]
      && Tiles(accepted[..|accepted| - 1], exe, w.offset)
  }

  ghost predicate Slice(exe: Bytes, offset: nat, w: Write) {
    0 < |w.data| && w.offset + |w.data| <= offset && offset <= |exe| && w.data == exe[w.offset..w.offset + |w.data|]
  }

  predicate Covers(w: Write, id: Id, k: nat) {
    w.job == id && w.offset <= k < w.offset + |w.data|
  }

  ghost predicate InFlight(writes: set<Write>, id: Id, k: nat) {
    exists w :: w in writes && Covers(w, id, k)
  }

  predicate Right(file: Bytes, exe: Bytes, k: nat) {
    k < |file| && k < |exe| && file[k] == exe[k]
  }

  /** Every claimed byte is in the file or in a write on its way. */
  ghost predicate FileFits(file: Bytes, exe: Bytes, offset: nat, writes: set<Write>, id: Id) {
    && offset <= |exe| && |file| <= offset
    && forall k: nat :: k < offset ==> Right(file, exe, k) || InFlight(writes, id, k)
  }

  ghost predicate PhaseFits(phase: Phase, file: Bytes, exe: Bytes) {
    match phase
    case Reading(seen) => |seen| <= |file| && forall k :: 0 <= k < |seen| && k < |exe| && seen[k] == exe[k] ==>
      Right(file, exe, k)
    case Fetching => true
    case Closing => true
    case Failed => true
    case _ => file == exe
  }

  ghost predicate JobFits(builds: Builds, job: Job, writes: set<Write>, id: Id) {
    var exe := Exe(builds, job);
    && HonestOffer(builds, job.offer)
    && Tiles(job.accepted, exe, job.offset)
    && FileFits(job.file, exe, job.offset, writes, id)
    && PhaseFits(job.phase, job.file, exe)
    && (job.phase.Fetching? || job.offset == |exe|)
  }

  predicate InPlace(job: Job, version: Version) {
    job.offer.version == version && (job.phase.Installed? || job.phase.Recorded?)
  }

  ghost predicate JobsFit(builds: Builds, jobs: map<Id, Job>, writes: set<Write>) {
    forall id :: id in jobs ==> JobFits(builds, jobs[id], writes, id)
  }

  ghost predicate WriteFits(builds: Builds, jobs: map<Id, Job>, w: Write) {
    w.job in jobs && Slice(Exe(builds, jobs[w.job]), jobs[w.job].offset, w)
  }

  ghost predicate WritesFit(builds: Builds, jobs: map<Id, Job>, writes: set<Write>) {
    forall w :: w in writes ==> WriteFits(builds, jobs, w)
  }

  ghost predicate TargetsFit(jobs: map<Id, Job>, targets: map<Version, Id>) {
    forall v :: v in targets ==> targets[v] in jobs && InPlace(jobs[targets[v]], v)
  }

  predicate Vouches(jobs: map<Id, Job>, id: Id, r: Record) {
    id in jobs && InPlace(jobs[id], r.version) && jobs[id].offer.sha256 == r.sha256
  }

  ghost predicate CurrentFits(jobs: map<Id, Job>, current: Option<Record>) {
    current.Some? ==> exists id :: Vouches(jobs, id, current.value)
  }

  predicate FetchFits(jobs: map<Id, Job>, fetching: Option<Id>) {
    fetching.Some? ==> fetching.value in jobs && jobs[fetching.value].phase.Fetching?
  }

  ghost predicate OpeningFits(builds: Builds, jobs: map<Id, Job>, opening: map<Id, Offer>) {
    forall id :: id in opening ==> HonestOffer(builds, opening[id]) && id !in jobs
  }

  ghost predicate Fits(builds: Builds, m: Machine) {
    && FetchFits(m.jobs, m.fetching) && OpeningFits(builds, m.jobs, m.opening)
    && JobsFit(builds, m.jobs, m.writes) && WritesFit(builds, m.jobs, m.writes)
    && TargetsFit(m.jobs, m.targets) && CurrentFits(m.jobs, m.current)
  }

  // ---------------------------------------------------------------- writes

  lemma OverwriteIsRight(file: Bytes, exe: Bytes, offset: nat, w: Write, k: nat)
    requires Slice(exe, offset, w) && |file| <= offset
    ensures var after := Overwrite(file, w.offset, w.data);
            && |file| <= |after| <= offset
            && (Right(file, exe, k) ==> Right(after, exe, k))
            && (Covers(w, w.job, k) ==> Right(after, exe, k))
  {
    if w.offset <= k < w.offset + |w.data| { assert w.data[k - w.offset] == exe[k]; }
  }

  lemma FileAfterWrite(file: Bytes, exe: Bytes, offset: nat, writes: set<Write>, w: Write, after: Bytes)
    requires FileFits(file, exe, offset, writes, w.job) && Slice(exe, offset, w)
    requires after == Overwrite(file, w.offset, w.data)
    ensures FileFits(after, exe, offset, writes - {w}, w.job)
  {
    OverwriteIsRight(file, exe, offset, w, 0);
    forall k: nat | k < offset ensures Right(after, exe, k) || InFlight(writes - {w}, w.job, k) {
      OverwriteIsRight(file, exe, offset, w, k);
      if !Right(file, exe, k) {
        var other :| other in writes && Covers(other, w.job, k);
        if other != w { assert other in writes - {w}; }
      }
    }
  }

  lemma PhaseAfterWrite(phase: Phase, file: Bytes, exe: Bytes, offset: nat, w: Write, after: Bytes)
    requires PhaseFits(phase, file, exe) && Slice(exe, offset, w) && |file| <= offset
    requires after == Overwrite(file, w.offset, w.data)
    ensures PhaseFits(phase, after, exe)
  {
    OverwriteIsRight(file, exe, offset, w, 0);
    if phase.Reading? {
      forall k | 0 <= k < |phase.seen| && k < |exe| && phase.seen[k] == exe[k] ensures Right(after, exe, k) {
        OverwriteIsRight(file, exe, offset, w, k);
      }
    } else if file == exe {
      forall k | 0 <= k < |exe| ensures after[k] == exe[k] {
        OverwriteIsRight(file, exe, offset, w, k);
        assert Right(file, exe, k);
      }
    }
  }

  lemma OtherWrites(file: Bytes, exe: Bytes, offset: nat, writes: set<Write>, writes': set<Write>, id: Id)
    requires FileFits(file, exe, offset, writes, id)
    requires forall w :: w in writes && w.job == id ==> w in writes'
    ensures FileFits(file, exe, offset, writes', id)
  {
    forall k: nat | k < offset ensures Right(file, exe, k) || InFlight(writes', id, k) {
      if !Right(file, exe, k) {
        var w :| w in writes && Covers(w, id, k);
        assert w in writes';
      }
    }
  }

  // ---------------------------------------------------------------- the steps keep it

  /** A job's successor: the same offer, no less claimed, still in place if it was. */
  ghost predicate Succeeds(job: Job, next: Job) {
    && next.offer == job.offer && next.offset >= job.offset
    && (InPlace(job, job.offer.version) ==> InPlace(next, job.offer.version))
  }

  lemma OthersStand(builds: Builds, jobs: map<Id, Job>, writes: set<Write>, id: Id, next: Job, writes': set<Write>)
    requires JobsFit(builds, jobs, writes) && JobFits(builds, next, writes', id)
    requires forall w :: w in writes && w.job != id ==> w in writes'
    ensures JobsFit(builds, jobs[id := next], writes')
  {
    forall i | i in jobs && i != id ensures JobFits(builds, jobs[i], writes', i) {
      OtherWrites(jobs[i].file, Exe(builds, jobs[i]), jobs[i].offset, writes, writes', i);
    }
  }

  lemma WritesStand(builds: Builds, jobs: map<Id, Job>, writes: set<Write>, id: Id, next: Job)
    requires WritesFit(builds, jobs, writes) && id in jobs && Succeeds(jobs[id], next)
    requires next.offset <= |Exe(builds, next)|
    ensures WritesFit(builds, jobs[id := next], writes)
  {
    forall w | w in writes ensures WriteFits(builds, jobs[id := next], w) { assert WriteFits(builds, jobs, w); }
  }

  lemma PlacesStand(jobs: map<Id, Job>, targets: map<Version, Id>, current: Option<Record>, id: Id, next: Job)
    requires TargetsFit(jobs, targets) && CurrentFits(jobs, current) && id in jobs && Succeeds(jobs[id], next)
    ensures TargetsFit(jobs[id := next], targets) && CurrentFits(jobs[id := next], current)
  {
    if current.Some? {
      var i :| Vouches(jobs, i, current.value);
      assert Vouches(jobs[id := next], i, current.value);
    }
  }

  /** Replacing one job by a successor that fits, its writes with it. */
  lemma ReplaceJob(builds: Builds, m: Machine, id: Id, next: Job, m': Machine)
    requires Fits(builds, m) && id in m.jobs && Succeeds(m.jobs[id], next)
    requires JobFits(builds, next, m'.writes, id)
    requires m' == m.(jobs := m.jobs[id := next], writes := m'.writes, names := m'.names, fetching := m'.fetching,
                      active := m'.active)
    requires forall w :: w in m.writes && w.job != id ==> w in m'.writes
    requires forall w :: w in m'.writes ==> w in m.writes || WriteFits(builds, m'.jobs, w)
    requires m'.fetching == None || (m'.fetching == m.fetching && (m.fetching == Some(id) ==> next.phase.Fetching?))
    ensures Fits(builds, m')
  {
    OthersStand(builds, m.jobs, m.writes, id, next, m'.writes);
    WritesStand(builds, m.jobs, m.writes, id, next);
    PlacesStand(m.jobs, m.targets, m.current, id, next);
  }

  lemma ChunkIsSlice(exe: Bytes, c: Chunk)
    requires Served(exe, c.offset) == Some(c.data)
    ensures c.offset + |c.data| <= |exe| && c.data == exe[c.offset..c.offset + |c.data|]
    ensures c.data == [] <==> c.offset == |exe|
  {}

  /** What the job looks like once it has claimed a chunk, its write already under way. */
  lemma JobAfterClaim(builds: Builds, job: Job, writes: set<Write>, id: Id, c: Chunk, claimed: Job, writes': set<Write>)
    requires JobFits(builds, job, writes, id) && job.phase.Fetching?
    requires c.peer == job.offer.peer && c.version == job.offer.version && c.offset == job.offset
    requires Served(Exe(builds, job), c.offset) == Some(c.data)
    requires claimed == job.(offset := job.offset + |c.data|, accepted := job.accepted + [Write(id, c.offset, c.data)])
    requires writes' == if c.data == [] then writes else writes + {Write(id, c.offset, c.data)}
    ensures JobFits(builds, claimed, writes', id)
    ensures c.data != [] ==> Slice(Exe(builds, job), claimed.offset, Write(id, c.offset, c.data))
  {
    var exe, w := Exe(builds, job), Write(id, c.offset, c.data);
    ChunkIsSlice(exe, c);
    assert claimed.accepted[..|claimed.accepted| - 1] == job.accepted;
    OtherWrites(job.file, exe, job.offset, writes, writes', id);
    forall k: nat | job.offset <= k < claimed.offset ensures InFlight(writes', id, k) {
      assert w in writes' && Covers(w, id, k);
    }
  }

  lemma FinishingFits(builds: Builds, m: Machine, id: Id)
    requires Fits(builds, m) && m.fetching == Some(id) && m.jobs[id].offset >= m.jobs[id].offer.size
    ensures Fits(builds, Finishing(m, id))
  {
    ReplaceJob(builds, m, id, m.jobs[id].(phase := Closing), Finishing(m, id));
  }

  lemma ClaimFits(builds: Builds, m: Machine, id: Id, c: Chunk, next: Job, claimed: Machine)
    requires Fits(builds, m) && m.fetching == Some(id) && Expected(m, c)
    requires Served(Exe(builds, m.jobs[id]), c.offset) == Some(c.data)
    requires next == m.jobs[id].(offset := m.jobs[id].offset + |c.data|,
                                 accepted := m.jobs[id].accepted + [Write(id, c.offset, c.data)])
    requires claimed == m.(jobs := m.jobs[id := next],
                           writes := if c.data == [] then m.writes else m.writes + {Write(id, c.offset, c.data)})
    ensures Fits(builds, claimed)
  {
    JobAfterClaim(builds, m.jobs[id], m.writes, id, c, next, claimed.writes);
    ReplaceJob(builds, m, id, next, claimed);
  }

  /** What a chunk that is taken leaves: its claim, and the end of the fetch when it was empty. */
  lemma ReceivedIs(m: Machine, c: Chunk, id: Id, claimed: Machine)
    requires Expected(m, c) && m.fetching == Some(id) && c.offset + |c.data| <= m.jobs[id].offer.size
    requires var job, w := m.jobs[id], Write(id, c.offset, c.data);
             claimed == m.(jobs := m.jobs[id := job.(offset := job.offset + |c.data|, accepted := job.accepted + [w])],
                           writes := if c.data == [] then m.writes else m.writes + {w})
    ensures Received(m, c) == if c.data == [] then Finishing(claimed, id) else claimed
  {}

  lemma ReceivedFits(builds: Builds, m: Machine, c: Chunk)
    requires Fits(builds, m) && Honest(builds, m, Receive(c))
    ensures Fits(builds, Received(m, c))
  {
    if Expected(m, c) {
      var id := m.fetching.value;
      var job, w := m.jobs[id], Write(id, c.offset, c.data);
      var next := job.(offset := job.offset + |c.data|, accepted := job.accepted + [w]);
      var claimed := m.(jobs := m.jobs[id := next], writes := if c.data == [] then m.writes else m.writes + {w});
      ChunkIsSlice(Exe(builds, job), c);
      ClaimFits(builds, m, id, c, next, claimed);
      OfferedSize(builds, m, id);
      ReceivedIs(m, c, id, claimed);
      if c.data == [] { FinishingFits(builds, claimed, id); }
    }
  }

  lemma OfferedSize(builds: Builds, m: Machine, id: Id)
    requires Fits(builds, m) && id in m.jobs
    ensures m.jobs[id].offer.size == |Exe(builds, m.jobs[id])|
  {
    assert JobFits(builds, m.jobs[id], m.writes, id);
  }

  lemma WrittenFits(builds: Builds, m: Machine, w: Write, written: Machine)
    requires Fits(builds, m) && w in m.writes
    requires w.job in m.jobs
    requires var job := m.jobs[w.job];
             written == m.(writes := m.writes - {w},
                           jobs := m.jobs[w.job := job.(file := Overwrite(job.file, w.offset, w.data))])
    ensures Fits(builds, written)
  {
    var id := w.job;
    var job, after := m.jobs[id], written.jobs[id];
    assert WriteFits(builds, m.jobs, w);
    FileAfterWrite(job.file, Exe(builds, job), job.offset, m.writes, w, after.file);
    PhaseAfterWrite(job.phase, job.file, Exe(builds, job), job.offset, w, after.file);
    ReplaceJob(builds, m, id, after, written);
  }

  lemma AfterWriteFits(builds: Builds, m: Machine, w: Write)
    requires Fits(builds, m)
    ensures Fits(builds, AfterWrite(m, w))
  {
    if w in m.writes && w.job in m.jobs {
      var job := m.jobs[w.job];
      var written := m.(writes := m.writes - {w},
                        jobs := m.jobs[w.job := job.(file := Overwrite(job.file, w.offset, w.data))]);
      WrittenFits(builds, m, w, written);
      if m.fetching == Some(w.job) && job.offset >= job.offer.size { FinishingFits(builds, written, w.job); }
    }
  }

  /** A digest that matches was taken of the executable, and the file holds it from then on. */
  lemma ProvenIsExact(builds: Builds, job: Job, writes: set<Write>, id: Id)
    requires JobFits(builds, job, writes, id) && job.phase.Reading?
    requires |job.phase.seen| >= |job.file| && Sha(job.phase.seen) == job.offer.sha256
    ensures job.file == Exe(builds, job)
  {
    var exe := Exe(builds, job);
    forall k | 0 <= k < |exe| ensures k < |job.file| && job.file[k] == exe[k] { assert Right(job.file, exe, k); }
  }

  lemma PhaseFitsOn(builds: Builds, m: Machine, id: Id, phase: Phase, names: set<Id>, m': Machine)
    requires Fits(builds, m) && id in m.jobs && !m.jobs[id].phase.Fetching?
    requires PhaseFits(phase, m.jobs[id].file, Exe(builds, m.jobs[id]))
    requires InPlace(m.jobs[id], m.jobs[id].offer.version) ==> phase.Installed? || phase.Recorded?
    requires m' == WithPhase(m.(names := names), id, phase)
    ensures Fits(builds, m')
  {
    ReplaceJob(builds, m, id, m.jobs[id].(phase := phase), m');
  }

  lemma ReadOnFits(builds: Builds, m: Machine, id: Id, seen: Bytes, end: nat, m': Machine)
    requires Fits(builds, m) && id in m.jobs && m.jobs[id].phase == Reading(seen)
    requires |seen| <= end <= |m.jobs[id].file|
    requires m' == WithPhase(m, id, Reading(seen + m.jobs[id].file[|seen|..end]))
    ensures Fits(builds, m')
  {
    assert JobFits(builds, m.jobs[id], m.writes, id);
    PhaseFitsOn(builds, m, id, Reading(seen + m.jobs[id].file[|seen|..end]), m.names, m');
  }

  lemma ReadingFits(builds: Builds, m: Machine, id: Id, n: nat, ok: bool, m': Machine)
    requires Fits(builds, m) && id in m.jobs && m.jobs[id].phase.Reading? && m' == Advanced(m, id, n, ok)
    ensures Fits(builds, m')
  {
    var job := m.jobs[id];
    var seen := job.phase.seen;
    if |seen| < |job.file| {
      ReadOnFits(builds, m, id, seen, if |seen| + n <= |job.file| then |seen| + n else |job.file|, m');
    } else if Sha(seen) == job.offer.sha256 {
      ProvenIsExact(builds, job, m.writes, id);
      PhaseFitsOn(builds, m, id, Proven, m.names, m');
    } else {
      PhaseFitsOn(builds, m, id, Failed, m.names - {id}, m');
    }
  }

  lemma PointTarget(builds: Builds, m: Machine, id: Id, v: Version)
    requires Fits(builds, m) && id in m.jobs && InPlace(m.jobs[id], v)
    ensures Fits(builds, m.(targets := m.targets[v := id]))
  {}

  lemma PointCurrent(builds: Builds, m: Machine, id: Id, r: Record)
    requires Fits(builds, m) && Vouches(m.jobs, id, r)
    ensures Fits(builds, m.(current := Some(r)))
  {}

  lemma InstallFits(builds: Builds, m: Machine, id: Id)
    requires Fits(builds, m) && id in m.jobs && m.jobs[id].phase.Cleared? && id in m.names
    ensures Fits(builds, Advanced(m, id, 0, true))
  {
    var moved := WithPhase(m.(names := m.names - {id}), id, Installed);
    PhaseFitsOn(builds, m, id, Installed, m.names - {id}, moved);
    PointTarget(builds, moved, id, m.jobs[id].offer.version);
  }

  lemma RecordFits(builds: Builds, m: Machine, id: Id)
    requires Fits(builds, m) && id in m.jobs && m.jobs[id].phase.Installed?
    ensures Fits(builds, Advanced(m, id, 0, true))
  {
    var done, offer := WithPhase(m, id, Recorded), m.jobs[id].offer;
    PhaseFitsOn(builds, m, id, Recorded, m.names, done);
    PointCurrent(builds, done, id, Record(offer.version, offer.sha256));
  }

  lemma ClearedFits(builds: Builds, m: Machine, id: Id, m': Machine)
    requires Fits(builds, m) && id in m.jobs && m.jobs[id].phase.Cleared? && m' == Advanced(m, id, 0, true)
    ensures Fits(builds, m')
  {
    if id in m.names { InstallFits(builds, m, id); } else { PhaseFitsOn(builds, m, id, Failed, m.names, m'); }
  }

  lemma EarlyFits(builds: Builds, m: Machine, id: Id, n: nat, ok: bool, m': Machine)
    requires Fits(builds, m) && id in m.jobs && m' == Advanced(m, id, n, ok)
    requires m.jobs[id].phase.Closing? || m.jobs[id].phase.Reading? || m.jobs[id].phase.Proven?
    ensures Fits(builds, m')
  {
    if m.jobs[id].phase.Reading? {
      ReadingFits(builds, m, id, n, ok, m');
    } else {
      assert JobFits(builds, m.jobs[id], m.writes, id);
      PhaseFitsOn(builds, m, id, m'.jobs[id].phase, m.names, m');
    }
  }

  lemma AdvancedFits(builds: Builds, m: Machine, id: Id, n: nat, ok: bool)
    requires Fits(builds, m)
    ensures Fits(builds, Advanced(m, id, n, ok))
  {
    if id in m.jobs {
      var m' := Advanced(m, id, n, ok);
      match m.jobs[id].phase {
        case Executed => ExecutedFits(builds, m, id, m');
        case Cleared => ClearedFits(builds, m, id, m');
        case Installed => RecordFits(builds, m, id);
        case Fetching =>
        case Failed =>
        case Recorded =>
        case _ => EarlyFits(builds, m, id, n, ok, m');
      }
    }
  }

  lemma ExecutedFits(builds: Builds, m: Machine, id: Id, m': Machine)
    requires Fits(builds, m) && id in m.jobs && m.jobs[id].phase.Executed? && m' == Advanced(m, id, 0, true)
    ensures Fits(builds, m')
  {
    assert JobFits(builds, m.jobs[id], m.writes, id);
    PhaseFitsOn(builds, m.(targets := m'.targets), id, Cleared, m.names, m');
  }

  lemma OpenFits(builds: Builds, m: Machine, id: Id)
    requires Fits(builds, m)
    ensures Fits(builds, AfterOpen(m, id))
  {
    if id in m.opening {
      var m' := AfterOpen(m, id);
      assert Tiles([], Exe(builds, m'.jobs[id]), 0);
      OthersStand(builds, m.jobs, m.writes, id, m'.jobs[id], m.writes);
      forall w | w in m.writes ensures WriteFits(builds, m'.jobs, w) { assert WriteFits(builds, m.jobs, w); }
      if m.current.Some? {
        var i :| Vouches(m.jobs, i, m.current.value);
        assert Vouches(m'.jobs, i, m.current.value);
      }
    }
  }

  lemma StepFits(builds: Builds, m: Machine, e: Event)
    requires Fits(builds, m) && Honest(builds, m, e)
    ensures Fits(builds, Step(m, e))
  {
    match e {
      case Begin(id, offer) =>
      case Opened(id) => OpenFits(builds, m, id);
      case Receive(chunk) => ReceivedFits(builds, m, chunk);
      case WriteDone(write) => AfterWriteFits(builds, m, write);
      case Advance(id, n, ok) => AdvancedFits(builds, m, id, n, ok);
      case Abandon =>
      case AbandonClosed =>
      case AbandonRemoved =>
    }
  }

  // ---------------------------------------------------------------- whole runs

  lemma {:induction false} RunFits(builds: Builds, m: Machine, events: seq<Event>)
    requires Fits(builds, m) && HonestRun(builds, m, events)
    ensures Fits(builds, Run(m, events))
    decreases |events|
  {
    if events != [] {
      StepFits(builds, m, events[0]);
      RunFits(builds, Step(m, events[0]), events[1..]);
    }
  }

  function DataOf(accepted: seq<Write>): Bytes
    decreases |accepted|
  {
    if accepted == [] then [] else DataOf(accepted[..|accepted| - 1]) + accepted[|accepted| - 1].data
  }

  /** Chunks that tile are, put together, the executable's first bytes: no gap and no overlap. */
  lemma {:induction false} TilesAreExact(accepted: seq<Write>, exe: Bytes, offset: nat)
    requires Tiles(accepted, exe, offset)
    ensures offset <= |exe| && DataOf(accepted) == exe[..offset]
    ensures forall i, j :: 0 <= i < j < |accepted| ==> accepted[i].offset + |accepted[i].data| <= accepted[j].offset
    ensures forall i :: 0 <= i < |accepted| ==> accepted[i].offset + |accepted[i].data| <= offset
    decreases |accepted|
  {
    if accepted != [] {
      var w, before := accepted[|accepted| - 1], accepted[..|accepted| - 1];
      TilesAreExact(before, exe, w.offset);
      assert exe[..offset] == exe[..w.offset] + exe[w.offset..offset];
      forall i | 0 <= i < |accepted| - 1 ensures accepted[i].offset + |accepted[i].data| <= w.offset {
        assert before[i] == accepted[i];
      }
      forall i, j | 0 <= i < j < |accepted| - 1 ensures accepted[i].offset + |accepted[i].data| <= accepted[j].offset {
        assert before[i] == accepted[i] && before[j] == accepted[j];
      }
    }
  }

  /**
   * Under any loss, repetition, reordering and retrying: a fetch's accepted chunks are exactly the first bytes
   * of the peer's executable, each claimed byte is in the file or in a write on its way, every write on its
   * way holds the executable's bytes, and a fetch finishes only once it has claimed everything.
   */
  lemma TransferIsExact(builds: Builds, events: seq<Event>, id: Id)
    requires HonestRun(builds, IDLE, events) && id in Run(IDLE, events).jobs
    ensures var m := Run(IDLE, events);
            var job := m.jobs[id];
            var exe := Exe(builds, job);
            && job.offset <= |exe| && DataOf(job.accepted) == exe[..job.offset]
            && (forall k: nat :: k < job.offset ==> Right(job.file, exe, k) || InFlight(m.writes, id, k))
            && (forall w :: w in m.writes && w.job == id ==> Slice(exe, job.offset, w))
            && (job.phase.Fetching? || job.offset == |exe|)
  {
    RunFits(builds, IDLE, events);
    var m := Run(IDLE, events);
    assert JobFits(builds, m.jobs[id], m.writes, id);
    TilesAreExact(m.jobs[id].accepted, Exe(builds, m.jobs[id]), m.jobs[id].offset);
    forall w | w in m.writes && w.job == id ensures Slice(Exe(builds, m.jobs[id]), m.jobs[id].offset, w) {
      assert WriteFits(builds, m.jobs, w);
    }
  }

  /**
   * Each accepted chunk leaves less to fetch, by a whole chunk or all that is left; any other chunk changes nothing.
   */
  lemma ChunkShrinksRemaining(builds: Builds, m: Machine, c: Chunk)
    requires Fits(builds, m) && Honest(builds, m, Receive(c)) && m.fetching.Some?
    ensures var id := m.fetching.value;
            var before, after := m.jobs[id], Received(m, c).jobs[id];
            && after.offer.size - after.offset <= before.offer.size - before.offset
            && Received(m, c).closing == m.closing
            && (Expected(m, c) && before.offset < before.offer.size ==>
                 after.offset ==
                   if before.offset + 16_384 <= before.offer.size
                   then before.offset + 16_384 else before.offer.size)
            && (!Expected(m, c) ==> Received(m, c) == m)
  {
    ChunkIsSlice(builds(c.peer, c.version), c);
    assert JobFits(builds, m.jobs[m.fetching.value], m.writes, m.fetching.value);
  }

  /** A chunk that comes twice is taken once. */
  lemma DuplicateIsIgnored(builds: Builds, m: Machine, c: Chunk)
    requires Fits(builds, m) && Honest(builds, m, Receive(c))
    ensures Received(Received(m, c), c) == Received(m, c)
  {
    ChunkIsSlice(builds(c.peer, c.version), c);
    if Expected(m, c) { assert JobFits(builds, m.jobs[m.fetching.value], m.writes, m.fetching.value); }
  }

  /** Once a finished fetch has no write on its way, its file is the executable and will be found to be. */
  lemma QuietFinishIsExact(builds: Builds, m: Machine, id: Id)
    requires Fits(builds, m) && id in m.jobs && !m.jobs[id].phase.Fetching?
    requires forall w :: w in m.writes ==> w.job != id
    ensures m.jobs[id].file == Exe(builds, m.jobs[id]) && Sha(m.jobs[id].file) == m.jobs[id].offer.sha256
  {
    var job := m.jobs[id];
    var exe := Exe(builds, job);
    assert JobFits(builds, job, m.writes, id);
    forall k: nat | k < |exe| ensures Right(job.file, exe, k) { assert !InFlight(m.writes, id, k); }
    assert Right(job.file, exe, |exe| - 1);
    forall k | 0 <= k < |exe| ensures job.file[k] == exe[k] { assert Right(job.file, exe, k); }
  }

  // ---------------------------------------------------------------- what current.json says

  /** The file current.json points at has the digest it records, unless it is just being replaced. */
  predicate Matched(m: Machine) {
    m.current.Some? && m.current.value.version in m.targets && m.targets[m.current.value.version] in m.jobs ==>
      Sha(m.jobs[m.targets[m.current.value.version]].file) == m.current.value.sha256
  }

  /** What is installed for a version is what the fetch that installed it was offered. */
  lemma InstalledAsOffered(builds: Builds, m: Machine, v: Version)
    requires Fits(builds, m) && v in m.targets
    ensures var job := m.jobs[m.targets[v]];
            job.offer.version == v && job.file == Exe(builds, job) && Sha(job.file) == job.offer.sha256
  {
    assert JobFits(builds, m.jobs[m.targets[v]], m.writes, m.targets[v]);
  }

  ghost predicate OneBuild(builds: Builds) {
    forall p, q, v :: builds(p, v) != [] && builds(q, v) != [] ==> builds(p, v) == builds(q, v)
  }

  lemma OneBuildMatches(builds: Builds, m: Machine)
    requires Fits(builds, m) && OneBuild(builds)
    ensures Matched(m)
  {
    if m.current.Some? && m.current.value.version in m.targets {
      var v := m.current.value.version;
      InstalledAsOffered(builds, m, v);
      var i :| Vouches(m.jobs, i, m.current.value);
      assert JobFits(builds, m.jobs[i], m.writes, i) && JobFits(builds, m.jobs[m.targets[v]], m.writes, m.targets[v]);
    }
  }

  // ---------------------------------------------------------------- a run that breaks it

  lemma {:induction false} RunJoin(builds: Builds, m: Machine, a: seq<Event>, b: seq<Event>)
    requires HonestRun(builds, m, a) && HonestRun(builds, Run(m, a), b)
    ensures HonestRun(builds, m, a + b) && Run(m, a + b) == Run(Run(m, a), b)
    decreases |a|
  {
    if a == [] {
      assert a + b == b;
    } else {
      assert (a + b)[1..] == a[1..] + b;
      RunJoin(builds, Step(m, a[0]), a[1..], b);
    }
  }

  lemma RunOne(builds: Builds, m: Machine, e: Event)
    requires Honest(builds, m, e)
    ensures HonestRun(builds, m, [e]) && Run(m, [e]) == Step(m, e)
  {
    assert [e][1..] == [];
    assert Run(Step(m, e), []) == Step(m, e);
  }

  /** Nothing but one fetch has moved. */
  ghost predicate OnlyMoved(m: Machine, m': Machine, id: Id) {
    && id in m.jobs && id in m'.jobs && m'.jobs.Keys == m.jobs.Keys && m'.jobs[id].offer == m.jobs[id].offer
    && (forall i :: i in m.jobs && i != id ==> m'.jobs[i] == m.jobs[i])
    && m'.opening == m.opening
  }

  /** With every chunk served and written in turn the fetch finishes. */
  lemma {:induction false} Download(builds: Builds, m: Machine, id: Id) returns (events: seq<Event>)
    requires Fits(builds, m) && m.fetching == Some(id) && m.writes == {} && m.jobs[id].offset < m.jobs[id].offer.size
    ensures HonestRun(builds, m, events)
    ensures var m' := Run(m, events);
            && OnlyMoved(m, m', id) && m'.jobs[id].phase == Closing && m'.fetching == None && !m'.active
            && m'.writes == {}
            && m'.names == m.names && m'.targets == m.targets && m'.current == m.current && Fits(builds, m')
    decreases m.jobs[id].offer.size - m.jobs[id].offset
  {
    var job := m.jobs[id];
    var exe := Exe(builds, job);
    assert JobFits(builds, job, m.writes, id);
    var data := Served(exe, job.offset).value;
    var c, w := Chunk(job.offer.peer, job.offer.version, job.offset, data, true), Write(id, job.offset, data);
    var m1, m2 := OneChunk(builds, m, id, c, w);
    RunOne(builds, m, Receive(c));
    RunOne(builds, m1, WriteDone(w));
    RunJoin(builds, m, [Receive(c)], [WriteDone(w)]);
    events := [Receive(c)] + [WriteDone(w)];
    RunFits(builds, m, events);
    if m2.jobs[id].phase.Fetching? {
      var rest := Download(builds, m2, id);
      RunJoin(builds, m, events, rest);
      events := events + rest;
    }
  }

  lemma OneChunk(builds: Builds, m: Machine, id: Id, c: Chunk, w: Write) returns (m1: Machine, m2: Machine)
    requires Fits(builds, m) && m.fetching == Some(id) && m.writes == {} && m.jobs[id].offset < m.jobs[id].offer.size
    requires Expected(m, c) && Served(Exe(builds, m.jobs[id]), c.offset) == Some(c.data)
    requires w == Write(id, c.offset, c.data)
    ensures m1 == Step(m, Receive(c)) && m2 == Step(m1, WriteDone(w))
    ensures OnlyMoved(m, m2, id) && m2.writes == {} && m2.names == m.names && m2.targets == m.targets
    ensures m2.current == m.current
    ensures m2.jobs[id].offset > m.jobs[id].offset
    ensures if m2.jobs[id].offset < m2.jobs[id].offer.size then m2.fetching == Some(id) && m2.jobs[id].phase.Fetching?
            else m2.fetching == None && !m2.active && m2.jobs[id].phase == Closing
  {
    m1, m2 := Step(m, Receive(c)), Step(Step(m, Receive(c)), WriteDone(w));
    TakeChunk(builds, m, id, c, w);
    WriteMoves(m1, id, w);
    MovedTwice(m, m1, m2, id);
  }

  lemma MovedTwice(m: Machine, m1: Machine, m2: Machine, id: Id)
    requires OnlyMoved(m, m1, id) && OnlyMoved(m1, m2, id)
    ensures OnlyMoved(m, m2, id)
  {}

  lemma TakeChunk(builds: Builds, m: Machine, id: Id, c: Chunk, w: Write)
    requires Fits(builds, m) && m.fetching == Some(id) && m.writes == {} && m.jobs[id].offset < m.jobs[id].offer.size
    requires Expected(m, c) && Served(Exe(builds, m.jobs[id]), c.offset) == Some(c.data)
    requires w == Write(id, c.offset, c.data)
    ensures var m1 := Received(m, c);
            && m1 == m.(jobs := m1.jobs, writes := {w}) && OnlyMoved(m, m1, id)
            && m1.jobs[id].offset > m.jobs[id].offset && m1.jobs[id].phase.Fetching?
  {
    ChunkIsSlice(Exe(builds, m.jobs[id]), c);
    assert HonestOffer(builds, m.jobs[id].offer) by { assert JobFits(builds, m.jobs[id], m.writes, id); }
    assert m.writes + {w} == {w};
  }

  lemma WriteMoves(m: Machine, id: Id, w: Write)
    requires id in m.jobs && m.fetching == Some(id) && m.writes == {w} && w.job == id && m.jobs[id].phase.Fetching?
    ensures var m' := AfterWrite(m, w);
            && OnlyMoved(m, m', id) && m'.writes == {} && m'.names == m.names && m'.targets == m.targets
            && m'.current == m.current
            && m'.jobs[id].offset == m.jobs[id].offset
            && if m.jobs[id].offset < m.jobs[id].offer.size then m'.fetching == Some(id) && m'.jobs[id].phase.Fetching?
               else m'.fetching == None && !m'.active && m'.jobs[id].phase == Closing
  {}

  ghost predicate Reaches(builds: Builds, events: seq<Event>, m: Machine) {
    HonestRun(builds, IDLE, events) && Run(IDLE, events) == m
  }

  /** A run that goes one honest step further. */
  lemma Extend(builds: Builds, events: seq<Event>, m: Machine, e: Event, m': Machine) returns (longer: seq<Event>)
    requires Reaches(builds, events, m) && Honest(builds, m, e) && m' == Step(m, e)
    ensures Reaches(builds, longer, m')
  {
    RunOne(builds, m, e);
    RunJoin(builds, IDLE, events, [e]);
    longer := events + [e];
  }

  /** The phases a fetch of a file goes through, each with how much the next step reads. */
  predicate Leads(from: Phase, n: nat, to: Phase, file: Bytes) {
    match from
    case Closing => to == Reading([])
    case Reading(seen) => if seen == file then to == Proven else seen == [] && n == |file| && to == Reading(file)
    case Proven => to == Executed
    case _ => false
  }

  lemma NextPhase(m: Machine, id: Id, from: Phase, n: nat, to: Phase)
    requires id in m.jobs && id in m.names && Sha(m.jobs[id].file) == m.jobs[id].offer.sha256
    requires Leads(from, n, to, m.jobs[id].file)
    ensures Step(WithPhase(m, id, from), Advance(id, n, true)) == WithPhase(m, id, to)
  {
    var file := m.jobs[id].file;
    assert [] + file[0..|file|] == file;
    assert m.jobs[id := m.jobs[id].(phase := from)][id := m.jobs[id].(phase := to)] ==
           m.jobs[id := m.jobs[id].(phase := to)];
  }

  lemma GoOn(builds: Builds, events: seq<Event>, m: Machine, id: Id, from: Phase, n: nat, to: Phase)
    returns (longer: seq<Event>)
    requires id in m.jobs && id in m.names && Sha(m.jobs[id].file) == m.jobs[id].offer.sha256
    requires Leads(from, n, to, m.jobs[id].file) && Reaches(builds, events, WithPhase(m, id, from))
    ensures Reaches(builds, longer, WithPhase(m, id, to))
  {
    NextPhase(m, id, from, n, to);
    longer := Extend(builds, events, WithPhase(m, id, from), Advance(id, n, true), WithPhase(m, id, to));
  }

  /** Opening the file, reading it whole, finding its digest right, running it. */
  lemma ToExecuted(builds: Builds, before: seq<Event>, m: Machine, id: Id) returns (events: seq<Event>)
    requires Reaches(builds, before, m)
    requires id in m.jobs && m.jobs[id].phase == Closing && id in m.names
    requires Sha(m.jobs[id].file) == m.jobs[id].offer.sha256
    ensures Reaches(builds, events, WithPhase(m, id, Executed))
  {
    var file := m.jobs[id].file;
    assert WithPhase(m, id, Closing) == m;
    events := GoOn(builds, before, m, id, Closing, 0, Reading([]));
    if file != [] { events := GoOn(builds, events, m, id, Reading([]), |file|, Reading(file)); }
    events := GoOn(builds, events, m, id, Reading(file), 0, Proven);
    events := GoOn(builds, events, m, id, Proven, 0, Executed);
  }

  function Placed(m: Machine, id: Id): Machine
    requires id in m.jobs
  {
    WithPhase(m, id, Installed).(names := m.names - {id}, targets := m.targets[m.jobs[id].offer.version := id])
  }

  /** Clearing the place and moving in. */
  lemma ToInstalled(builds: Builds, before: seq<Event>, m: Machine, id: Id) returns (events: seq<Event>)
    requires id in m.jobs && id in m.names && Reaches(builds, before, WithPhase(m, id, Executed))
    ensures Reaches(builds, events, Placed(m, id))
  {
    var v := m.jobs[id].offer.version;
    var executed, cleared := WithPhase(m, id, Executed), WithPhase(m, id, Cleared).(targets := m.targets - {v});
    assert cleared.jobs == executed.jobs[id := executed.jobs[id].(phase := Cleared)];
    events := Extend(builds, before, executed, Advance(id, 0, true), cleared);
    assert cleared.targets[v := id] == m.targets[v := id];
    assert Placed(m, id).jobs == cleared.jobs[id := cleared.jobs[id].(phase := Installed)];
    events := Extend(builds, events, cleared, Advance(id, 0, true), Placed(m, id));
  }

  /** Nothing is being fetched or written, and this name is new. */
  ghost predicate AtRest(m: Machine, id: Id) {
    m.fetching == None && !m.active && m.writes == {} && id !in m.jobs && id !in m.opening
  }

  lemma Start(builds: Builds, before: seq<Event>, m: Machine, id: Id, offer: Offer)
    returns (events: seq<Event>, m': Machine)
    requires Reaches(builds, before, m) && AtRest(m, id) && HonestOffer(builds, offer)
    ensures Reaches(builds, events, m')
    ensures m'.fetching == Some(id) && m'.writes == {} && m'.opening == m.opening && m'.targets == m.targets
    ensures m'.current == m.current
    ensures m'.jobs == m.jobs[id := Job(offer, 0, [], [], Fetching)] && id in m'.names
  {
    var begun := Step(m, Begin(id, offer));
    events := Extend(builds, before, m, Begin(id, offer), begun);
    m' := Step(begun, Opened(id));
    assert begun.opening - {id} == m.opening;
    events := Extend(builds, events, begun, Opened(id), m');
  }

  /** From rest, a whole fetch: asked for, served chunk by chunk, verified and installed. */
  lemma Fetch(builds: Builds, before: seq<Event>, m: Machine, id: Id, offer: Offer)
    returns (events: seq<Event>, m': Machine)
    requires Reaches(builds, before, m) && AtRest(m, id) && HonestOffer(builds, offer)
    ensures Reaches(builds, events, m')
    ensures m'.fetching == None && !m'.active && m'.writes == {} && m'.opening == m.opening
    ensures m'.jobs.Keys == m.jobs.Keys + {id}
    ensures m'.current == m.current && m'.jobs[id].phase == Installed && m'.jobs[id].offer == offer
    ensures m'.targets == m.targets[offer.version := id]
  {
    var m2, m3;
    events, m2 := Start(builds, before, m, id, offer);
    events, m3 := Finish(builds, events, m2, id);
    events := ToExecuted(builds, events, m3, id);
    events := ToInstalled(builds, events, m3, id);
    m' := Placed(m3, id);
  }

  lemma Finish(builds: Builds, before: seq<Event>, m: Machine, id: Id) returns (events: seq<Event>, m': Machine)
    requires Reaches(builds, before, m) && m.fetching == Some(id) && m.writes == {}
    requires id in m.jobs && m.jobs[id].offset < m.jobs[id].offer.size
    ensures Reaches(builds, events, m') && OnlyMoved(m, m', id)
    ensures m'.jobs[id].phase == Closing && m'.fetching == None && !m'.active && m'.writes == {}
    ensures m'.names == m.names && m'.targets == m.targets && m'.current == m.current
    ensures Sha(m'.jobs[id].file) == m.jobs[id].offer.sha256
  {
    RunFits(builds, IDLE, before);
    var chunks := Download(builds, m, id);
    RunJoin(builds, IDLE, before, chunks);
    events, m' := before + chunks, Run(m, chunks);
    QuietFinishIsExact(builds, m', id);
  }

  /**
   * In every run current.json records the digest of the file it points at, exactly when no two peers ever
   * offer different builds under one version. The record names a place that depends on the version alone.
   */
  lemma CurrentIsVerified(builds: Builds)
    ensures (forall events :: HonestRun(builds, IDLE, events) ==> Matched(Run(IDLE, events))) <==> OneBuild(builds)
  {
    if OneBuild(builds) {
      forall events | HonestRun(builds, IDLE, events) ensures Matched(Run(IDLE, events)) {
        RunFits(builds, IDLE, events);
        OneBuildMatches(builds, Run(IDLE, events));
      }
    } else {
      var p, q, v :| builds(p, v) != [] && builds(q, v) != [] && builds(p, v) != builds(q, v);
      var events := TwoBuilds(builds, p, q, v);
    }
  }

  lemma TwoBuilds(builds: Builds, p: Peer, q: Peer, v: Version) returns (events: seq<Event>)
    requires builds(p, v) != [] && builds(q, v) != [] && builds(p, v) != builds(q, v)
    ensures HonestRun(builds, IDLE, events) && !Matched(Run(IDLE, events))
  {
    var m1, m3;
    assert Reaches(builds, [], IDLE);
    events, m1 := Fetch(builds, [], IDLE, 0, Offer(p, v, |builds(p, v)|, Sha(builds(p, v))));
    var m2 := Step(m1, Advance(0, 0, true));
    events := Extend(builds, events, m1, Advance(0, 0, true), m2);
    events, m3 := Fetch(builds, events, m2, 1, Offer(q, v, |builds(q, v)|, Sha(builds(q, v))));
    RunFits(builds, IDLE, events);
    InstalledAsOffered(builds, m3, v);
  }

  // ---------------------------------------------------------------- the updater

  class PeerUpdater {
    var fetching: Option<Id>
    var active: bool
    var opening: map<Id, Offer>
    var jobs: map<Id, Job>
    var names: set<Id>
    var writes: set<Write>
    var closing: nat
    var removing: nat
    var targets: map<Version, Id>
    var current: Option<Record>

    function State(): Machine
      reads this
    {
      Machine(fetching, active, opening, jobs, names, writes, closing, removing, targets, current)
    }

    constructor ()
      ensures State() == IDLE
    {
      fetching, active, opening, jobs, names, writes := None, false, map[], map[], {}, {};
      closing, removing, targets, current := 0, 0, map[], None;
    }

    /** Up to the first await: only the machine-wide flag is taken. */
    method BeginFetch(id: Id, offer: Offer)
      modifies this
      ensures State() == Step(old(State()), Begin(id, offer))
    {
      if fetching.Some? || active { return; }
      active := true;
      opening := opening[id := offer];
    }

    method FetchOpened(id: Id)
      requires id in opening
      modifies this
      ensures State() == Step(old(State()), Opened(id))
    {
      jobs := jobs[id := Job(opening[id], 0, [], [], Fetching)];
      opening := opening - {id};
      names := names + {id};
      fetching := Some(id);
    }

    /** A chunk message: the offset is claimed before the write is started. */
    method ReceiveChunk(c: Chunk)
      modifies this
      ensures State() == Step(old(State()), Receive(c))
    {
      if fetching.None? || !c.encrypted || fetching.value !in jobs { return; }
      var id := fetching.value;
      var job := jobs[id];
      if c.peer != job.offer.peer || c.version != job.offer.version || c.offset != job.offset { return; }
      var offset := job.offset;
      if offset + |c.data| > job.offer.size {
        AbandonFetch();
        return;
      }
      job := job.(offset := offset + |c.data|, accepted := job.accepted + [Write(id, offset, c.data)]);
      jobs := jobs[id := job];
      if c.data == [] {
        FinishFetch(id);
      } else {
        writes := writes + {Write(id, offset, c.data)};
      }
    }

    /** What follows a write once it is done. */
    method WriteCompleted(w: Write)
      requires w in writes && w.job in jobs
      modifies this
      ensures State() == Step(old(State()), WriteDone(w))
    {
      writes := writes - {w};
      jobs := jobs[w.job := jobs[w.job].(file := Overwrite(jobs[w.job].file, w.offset, w.data))];
      if fetching != Some(w.job) { return; }
      if jobs[w.job].offset >= jobs[w.job].offer.size { FinishFetch(w.job); }
    }

    /** Up to the first await. */
    method FinishFetch(id: Id)
      requires id in jobs
      modifies this
      ensures State() == Finishing(old(State()), id)
    {
      fetching, active := None, false;
      jobs := jobs[id := jobs[id].(phase := Closing)];
    }

    method FinishOn(id: Id, n: nat, ok: bool)
      requires id in jobs
      modifies this
      ensures State() == Step(old(State()), Advance(id, n, ok))
    {
      var job := jobs[id];
      var next := job.phase;
      match job.phase {
        case Closing => next := if id in names then Reading([]) else Failed;
        case Reading(seen) =>
          if |seen| < |job.file| {
            var end := if |seen| + n <= |job.file| then |seen| + n else |job.file|;
            next := Reading(seen + job.file[|seen|..end]);
          } else if Sha(seen) == job.offer.sha256 {
            next := Proven;
          } else {
            names, next := names - {id}, Failed;
          }
        case Proven => next := if ok then Executed else Failed;
        case Executed => targets, next := targets - {job.offer.version}, Cleared;
        case Cleared =>
          next := Failed;
          if id in names { names, targets, next := names - {id}, targets[job.offer.version := id], Installed; }
        case Installed => current, next := Some(Record(job.offer.version, job.offer.sha256)), Recorded;
        case _ =>
      }
      jobs := jobs[id := job.(phase := next)];
    }

    method AbandonFetch()
      modifies this
      ensures State() == Step(old(State()), Abandon)
    {
      if fetching.None? { return; }
      closing := closing + 1;
    }

    /** After the close: whatever is being fetched by then is unlinked. */
    method AbandonGoesOn()
      requires closing > 0
      modifies this
      ensures State() == Step(old(State()), AbandonClosed)
    {
      closing := closing - 1;
      if fetching.None? { return; }
      names := names - {fetching.value};
      removing := removing + 1;
    }

    method AbandonEnds()
      requires removing > 0
      modifies this
      ensures State() == Step(old(State()), AbandonRemoved)
    {
      removing := removing - 1;
      fetching, active := None, false;
    }
  }
}
