/**
 * src/realtime-server.js:290-388, 718-751: one live document, its file and the filesystem events in between,
 * over whole runs. A write is in flight until its rename and the bookkeeping after it are done.
 */
module Echo {
  import opened Basics
  import opened Realtime

  datatype Entry = Entry(hash: Digest, at: nat)

  /** `own` is whether the file was last put in place by this watcher; `seen` a content read and not yet judged. */
  datatype Document = Document(
    text: Text, file: Text, own: bool, lastWritten: Option<Text>, history: seq<Entry>,
    writing: bool, queue: seq<Text>, renamed: bool, seen: Option<Text>, now: nat)

  datatype Event =
    | Remote(text: Text)
    | Rename
    | Complete
    | Bounce(content: Text)
    | Tick(ms: nat)
    | Read
    | Judge

  predicate Recent(d: Document, content: Text) {
    exists e :: e in d.history && e.hash == Sha(content) && d.now - e.at <= ECHO_WINDOW_MS
  }

  /** #write up to its first await. */
  function WriteBegun(d: Document): Document {
    d.(writing := true, queue := d.queue + [d.text])
  }

  function Pushed(history: seq<Entry>, e: Entry): seq<Entry> {
    var longer := history + [e];
    if |longer| > HISTORY_LENGTH then longer[1..] else longer
  }

  function Completed(d: Document): Document
    requires d.queue != []
  {
    var data := d.queue[0];
    d.(lastWritten := Some(data), history := Pushed(d.history, Entry(Sha(data), d.now)),
       queue := d.queue[1..], renamed := false, writing := false)
  }

  /** The content is taken for what someone outside made of the file. */
  predicate TakenAsEdit(d: Document, content: Text) {
    && d.lastWritten != Some(content) && content != d.text
    && !(content == [] && d.text != [])
    && !(d.text != [] && Recent(d, content))
  }

  /** What the file is compared with: the last version known to be in it, or else the document. */
  function Base(d: Document): Text {
    if d.lastWritten.Some? then d.lastWritten.value else d.text
  }

  function Judged(d: Document, content: Text): Document {
    if d.lastWritten == Some(content) then d
    else if content == d.text then d.(lastWritten := Some(content))
    else if content == [] && d.text != [] then d
    else if d.text != [] && Recent(d, content) then WriteBegun(d.(lastWritten := None))
    else WriteBegun(d.(text := Patched(d.text, Base(d), content), lastWritten := None))
  }

  function Step(d: Document, e: Event): Document {
    match e
    case Remote(text) => WriteBegun(d.(text := text))
    case Rename => if d.queue == [] || d.renamed then d else d.(file := d.queue[0], own := true, renamed := true)
    case Complete => if d.queue == [] || !d.renamed then d else Completed(d)
    case Bounce(content) => d.(file := content, own := false)
    case Tick(ms) => d.(now := d.now + ms)
    case Read => if d.writing then d else d.(seen := Some(d.file))
    case Judge => if d.seen.None? then d else Judged(d.(seen := None), d.seen.value)
  }

  function Run(d: Document, events: seq<Event>): Document
    decreases |events|
  {
    if events == [] then d else Run(Step(d, events[0]), events[1..])
  }

  // ---------------------------------------------------------------- the hypotheses

  /**
   * Writes are serialized, an event is judged before the next write begins, and what an outside writer puts
   * back is, when it is judged, a version written within the window and still remembered, and not empty.
   */
  predicate Orderly(d: Document, e: Event) {
    match e
    case Remote(_) => d.queue == [] && d.seen.None?
    case Bounce(_) => d.seen.None?
    case Judge => d.seen.Some? && !d.own ==> d.seen.value != [] && Recent(d, d.seen.value)
    case _ => true
  }

  predicate OrderlyRun(d: Document, events: seq<Event>)
    decreases |events|
  {
    events == [] || (Orderly(d, events[0]) && OrderlyRun(Step(d, events[0]), events[1..]))
  }

  // ---------------------------------------------------------------- what is kept

  /** At rest the last version written is the document; otherwise the one write under way carries it. */
  predicate Tracked(d: Document) {
    && (d.writing <==> d.queue != [])
    && (if d.queue == [] then d.lastWritten == Some(d.text) && !d.renamed && (d.own ==> d.file == d.text)
        else d.queue == [d.text] && d.seen.None? && (d.renamed && d.own ==> d.file == d.text))
    && (d.seen.Some? ==> d.seen == Some(d.file))
  }

  lemma StepKeepsTracked(d: Document, e: Event)
    requires Tracked(d) && Orderly(d, e)
    ensures Tracked(Step(d, e))
    ensures d.text != [] && !e.Remote? ==> Step(d, e).text == d.text
  {
    if e.Judge? && d.seen.Some? && !d.own && d.text == [] && d.lastWritten != Some(d.seen.value) {
      PatchOfBase(d.text, d.seen.value);
    }
  }

  /** A judged event leaves the file equal to the document, at once or when the write it begins is done. */
  lemma EventSettles(d: Document)
    requires Tracked(d) && d.seen.Some? && Orderly(d, Judge)
    ensures var after := Step(d, Judge);
            var settled := if after.queue == [] then after else Step(Step(after, Rename), Complete);
            settled.file == settled.text == after.text && settled.queue == [] && settled.lastWritten == Some(after.text)
  {
    StepKeepsTracked(d, Judge);
    if Step(d, Judge).queue != [] { WriteSettles(Step(d, Judge)); }
  }

  lemma WriteSettles(d: Document)
    requires Tracked(d) && d.queue != [] && !d.renamed
    ensures var after := Step(Step(d, Rename), Complete);
            after.file == after.text == d.text && after.queue == [] && after.lastWritten == Some(d.text)
  {}

  /** No event along the run changes a document that is not empty. */
  predicate OnlyRemoteChanges(d: Document, events: seq<Event>)
    decreases |events|
  {
    events == [] ||
    (&& (d.text != [] && !events[0].Remote? ==> Step(d, events[0]).text == d.text)
     && OnlyRemoteChanges(Step(d, events[0]), events[1..]))
  }

  /** Whatever is typed elsewhere, written, put back and read: the watcher's own versions never feed back. */
  lemma {:induction false} NoFeedback(d: Document, events: seq<Event>)
    requires Tracked(d) && OrderlyRun(d, events)
    ensures Tracked(Run(d, events)) && OnlyRemoteChanges(d, events)
    decreases |events|
  {
    if events != [] {
      StepKeepsTracked(d, events[0]);
      NoFeedback(Step(d, events[0]), events[1..]);
    }
  }

  /** A document just hydrated from its file. */
  function Hydrated(text: Text): Document {
    Document(text, text, true, Some(text), [Entry(Sha(text), 0)], false, [], false, None, 0)
  }

  // ---------------------------------------------------------------- the server's document

  /** What is neither known nor a momentary truncation is an echo or an edit. */
  lemma JudgedIs(d: Document, content: Text, echo: bool)
    requires d.lastWritten != Some(content) && content != d.text && !(content == [] && d.text != [])
    requires echo <==> d.text != [] && Recent(d, content)
    ensures Judged(d, content) ==
              WriteBegun(d.(text := if echo then d.text else Patched(d.text, Base(d), content), lastWritten := None))
  {}

  class RealtimeDocument {
    var text: Text
    var file: Text
    var own: bool
    var lastWritten: Option<Text>
    var writeHistory: seq<Entry>
    var writing: bool
    var queue: seq<Text>
    var renamed: bool
    var seen: Option<Text>
    var now: nat

    function State(): Document
      reads this
    {
      Document(text, file, own, lastWritten, writeHistory, writing, queue, renamed, seen, now)
    }

    constructor (content: Text)
      ensures State() == Hydrated(content)
    {
      text, file, own, lastWritten := content, content, true, Some(content);
      writeHistory, writing, queue, renamed, seen, now := [Entry(Sha(content), 0)], false, [], false, None, 0;
    }

    method ReceiveUpdate(update: Text)
      modifies this
      ensures State() == Step(old(State()), Remote(update))
    {
      text := update;
      BeginWrite();
    }

    method BeginWrite()
      modifies this
      ensures State() == WriteBegun(old(State()))
    {
      var data := text;
      writing := true;
      queue := queue + [data];
    }

    method RenameIntoPlace()
      requires queue != [] && !renamed
      modifies this
      ensures State() == Step(old(State()), Rename)
    {
      file, own, renamed := queue[0], true, true;
    }

    method EndWrite()
      requires queue != [] && renamed
      modifies this
      ensures State() == Step(old(State()), Complete)
    {
      var data := queue[0];
      queue, renamed := queue[1..], false;
      lastWritten := Some(data);
      writeHistory := writeHistory + [Entry(Sha(data), now)];
      if |writeHistory| > HISTORY_LENGTH { writeHistory := writeHistory[1..]; }
      writing := false;
    }

    /** An event for the file: its content is read unless a write says it is under way. */
    method FilesystemChanged()
      modifies this
      ensures State() == Step(old(State()), Read)
    {
      if writing { return; }
      seen := Some(file);
    }

    method JudgeContent()
      requires seen.Some?
      modifies this
      ensures State() == Step(old(State()), Judge)
    {
      var content := seen.value;
      seen := None;
      ghost var d := State();
      if lastWritten == Some(content) { return; }
      var current := text;
      if content == current {
        lastWritten := Some(content);
        return;
      }
      if content == [] && |current| > 0 { return; }
      var echo := |current| > 0 && RecentlyWritten(content);
      JudgedIs(d, content, echo);
      TakeIn(content, echo);
    }

    /** An echo is written over again; an edit is patched in and written. */
    method TakeIn(content: Text, echo: bool)
      modifies this
      ensures var d := old(State());
              State() == WriteBegun(d.(text := if echo then d.text else Patched(d.text, Base(d), content),
                                       lastWritten := None))
    {
      if !echo {
        var base := if lastWritten.Some? then lastWritten.value else text;
        text := Patch(text, base, content);
      }
      lastWritten := None;
      BeginWrite();
    }

    predicate RecentlyWritten(content: Text)
      reads this
      ensures RecentlyWritten(content) <==> Recent(State(), content)
    {
      exists e :: e in writeHistory && e.hash == Sha(content) && now - e.at <= ECHO_WINDOW_MS
    }
  }
}
