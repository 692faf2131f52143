/**
 * What a live document remembers of its own writes (src/realtime-server.js:347-355, 743-746): over whole runs, the last
 * 30 for 15 seconds; and that within that memory nothing the watcher wrote feeds back.
 */
module Memory {
  import opened Basics
  import opened Realtime
  import opened Echo

  /** The write an event completes. */
  function Finished(d: Document, e: Event): seq<Entry> {
    if e.Complete? && d.queue != [] && d.renamed then [Entry(Sha(d.queue[0]), d.now)] else []
  }

  /** Every write a run completes, oldest first. */
  function Writes(d: Document, events: seq<Event>): seq<Entry>
    decreases |events|
  {
    if events == [] then [] else Finished(d, events[0]) + Writes(Step(d, events[0]), events[1..])
  }

  function Last30(log: seq<Entry>): seq<Entry> {
    if |log| <= 30 then log else log[|log| - 30..]
  }

  /** Written no more than 30 writes and 15 seconds ago. */
  ghost predicate Lately(log: seq<Entry>, now: nat, content: Text) {
    exists i :: 0 <= i < |log| && |log| - i <= 30 && log[i].hash == Sha(content) && now - log[i].at <= 15000
  }

  lemma StepRemembers(d: Document, e: Event, log: seq<Entry>)
    requires d.history == Last30(log)
    ensures Step(d, e).history == Last30(log + Finished(d, e))
  {
    assert log + [] == log;
  }

  /** The history is the last 30 of all writes. */
  lemma {:induction false} RunRemembers(d: Document, events: seq<Event>, log: seq<Entry>)
    requires d.history == Last30(log)
    ensures Run(d, events).history == Last30(log + Writes(d, events))
    ensures |Run(d, events).history| <= 30
    decreases |events|
  {
    if events == [] {
      assert log + Writes(d, events) == log;
    } else {
      var next, done := Step(d, events[0]), Finished(d, events[0]);
      StepRemembers(d, events[0], log);
      RunRemembers(next, events[1..], log + done);
      assert log + done + Writes(next, events[1..]) == log + (done + Writes(next, events[1..]));
    }
  }

  lemma RecentIsLately(d: Document, log: seq<Entry>, content: Text)
    requires d.history == Last30(log)
    ensures Recent(d, content) <==> Lately(log, d.now, content)
  {
    if Recent(d, content) {
      var e :| e in d.history && e.hash == Sha(content) && d.now - e.at <= 15000;
      var k :| 0 <= k < |d.history| && d.history[k] == e;
      var i := if |log| <= 30 then k else |log| - 30 + k;
      assert log[i] == e;
    }
    if Lately(log, d.now, content) {
      var i :| 0 <= i < |log| && |log| - i <= 30 && log[i].hash == Sha(content) && d.now - log[i].at <= 15000;
      assert d.history[if |log| <= 30 then i else i - (|log| - 30)] == log[i];
      assert log[i] in d.history;
    }
  }

  /** Over every run a content is taken for an echo exactly when the watcher wrote it lately. */
  lemma RecentExactlyWhen(text: Text, events: seq<Event>, content: Text)
    ensures var log := [Entry(Sha(text), 0)] + Writes(Hydrated(text), events);
            Recent(Run(Hydrated(text), events), content)
            <==> Lately(log, Run(Hydrated(text), events).now, content)
  {
    var log := [Entry(Sha(text), 0)];
    RunRemembers(Hydrated(text), events, log);
    RecentIsLately(Run(Hydrated(text), events), log + Writes(Hydrated(text), events), content);
  }

  /** A write just completed is remembered, and stays so for 29 more writes and 15 seconds. */
  lemma CompletedIsRemembered(text: Text, events: seq<Event>, later: seq<Event>)
    requires var d := Run(Hydrated(text), events); d.queue != [] && d.renamed
    requires var d := Run(Hydrated(text), events);
             |Writes(Step(d, Complete), later)| <= 29 && Run(Step(d, Complete), later).now - d.now <= 15000
    ensures var d := Run(Hydrated(text), events); Recent(Run(Step(d, Complete), later), d.queue[0])
  {
    var d, log := Run(Hydrated(text), events), [Entry(Sha(text), 0)];
    RunRemembers(Hydrated(text), events, log);
    var before := log + Writes(Hydrated(text), events);
    StepRemembers(d, Complete, before);
    var done := Step(d, Complete);
    RunRemembers(done, later, before + Finished(d, Complete));
    var all := before + Finished(d, Complete) + Writes(done, later);
    assert all[|before|] == Entry(Sha(d.queue[0]), d.now);
    RecentIsLately(Run(done, later), all, d.queue[0]);
  }

  // ---------------------------------------------------------------- no feedback, from the run alone

  /** Writes are serialized, and an event is judged before the next write begins. */
  predicate Serial(d: Document, e: Event) {
    match e
    case Remote(_) => d.queue == [] && d.seen.None?
    case Bounce(_) => d.seen.None?
    case _ => true
  }

  /** What an outside writer put back is a version this watcher wrote lately, and not empty. */
  ghost predicate PutsBackOwn(d: Document, e: Event, log: seq<Entry>) {
    e.Judge? && d.seen.Some? && !d.own ==> d.seen.value != [] && Lately(log, d.now, d.seen.value)
  }

  ghost predicate OwnRun(d: Document, events: seq<Event>, log: seq<Entry>)
    decreases |events|
  {
    events == [] ||
    (&& Serial(d, events[0]) && PutsBackOwn(d, events[0], log)
     && OwnRun(Step(d, events[0]), events[1..], log + Finished(d, events[0])))
  }

  lemma {:induction false} OwnRunIsOrderly(d: Document, events: seq<Event>, log: seq<Entry>)
    requires d.history == Last30(log) && OwnRun(d, events, log)
    ensures OrderlyRun(d, events)
    decreases |events|
  {
    if events != [] {
      if d.seen.Some? { RecentIsLately(d, log, d.seen.value); }
      StepRemembers(d, events[0], log);
      OwnRunIsOrderly(Step(d, events[0]), events[1..], log + Finished(d, events[0]));
    }
  }

  /**
   * Over every run with one write at a time, in which others put back only what this watcher wrote no more than 30
   * writes and 15 seconds before, nothing but remote updates changes a document that is not empty.
   */
  lemma OwnVersionsNeverFeedBack(text: Text, events: seq<Event>)
    requires OwnRun(Hydrated(text), events, [Entry(Sha(text), 0)])
    ensures OnlyRemoteChanges(Hydrated(text), events)
  {
    OwnRunIsOrderly(Hydrated(text), events, [Entry(Sha(text), 0)]);
    NoFeedback(Hydrated(text), events);
  }
}
