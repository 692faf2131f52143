/**
 * src/realtime-server.js:308-388, 718-751: exactly when a filesystem event feeds back into the document, over
 * every run, and in particular when one of this watcher's own versions does.
 */
module Feedback {
  import opened Basics
  import opened Realtime
  import opened Echo

  // ---------------------------------------------------------------- one event

  /** The content read is taken for an outside edit, and its patch alters the document. */
  predicate FeedsBack(d: Document) {
    d.seen.Some? && TakenAsEdit(d, d.seen.value) && Alters(d.text, Base(d), d.seen.value)
  }

  /** A judged event changes the text exactly when the content is taken as an edit and differs where the patch goes. */
  lemma ChangesExactlyWhenTaken(d: Document)
    requires d.seen.Some?
    ensures Step(d, Judge).text != d.text <==> FeedsBack(d)
  {
    PatchAltersExactlyWhen(d.text, Base(d), d.seen.value);
    JudgedText(d);
  }

  lemma JudgedText(d: Document)
    requires d.seen.Some?
    ensures Step(d, Judge).text ==
              if TakenAsEdit(d, d.seen.value) then Patched(d.text, Base(d), d.seen.value) else d.text
  {
    assert Recent(d.(seen := None), d.seen.value) == Recent(d, d.seen.value);
  }

  // ---------------------------------------------------------------- every run

  predicate NeverFedBack(d: Document, events: seq<Event>)
    decreases |events|
  {
    events == [] ||
    (&& (events[0].Judge? && d.text != [] ==> !FeedsBack(d))
     && NeverFedBack(Step(d, events[0]), events[1..]))
  }

  /**
   * In any run at all, only remote updates change a document that is not empty exactly when no judged event feeds back.
   */
  lemma {:induction false} OnlyRemoteChangesExactlyWhen(d: Document, events: seq<Event>)
    ensures OnlyRemoteChanges(d, events) <==> NeverFedBack(d, events)
    decreases |events|
  {
    if events != [] {
      OnlyRemoteChangesExactlyWhen(Step(d, events[0]), events[1..]);
      if events[0].Judge? && d.seen.Some? { ChangesExactlyWhenTaken(d); }
    }
  }

  // ---------------------------------------------------------------- the watcher's own versions

  /** Nobody else writes the file. */
  predicate Alone(events: seq<Event>) {
    forall e :: e in events ==> !e.Bounce?
  }

  /** The versions this watcher puts in place along a run. */
  function Placed(d: Document, events: seq<Event>): set<Text>
    decreases |events|
  {
    if events == [] then {}
    else
      (if events[0].Rename? && d.queue != [] && !d.renamed then {d.queue[0]} else {})
      + Placed(Step(d, events[0]), events[1..])
  }

  lemma {:induction false} OnlyOwnVersions(d: Document, events: seq<Event>, own: set<Text>)
    requires Alone(events) && d.file in own && (d.seen.Some? ==> d.seen.value in own)
    ensures var end := Run(d, events);
            end.file in own + Placed(d, events) && (end.seen.Some? ==> end.seen.value in own + Placed(d, events))
    decreases |events|
  {
    if events != [] {
      var next := Step(d, events[0]);
      var here := if events[0].Rename? && d.queue != [] && !d.renamed then {d.queue[0]} else {};
      OnlyOwnVersions(next, events[1..], own + here);
      assert own + here + Placed(next, events[1..]) == own + Placed(d, events);
    }
  }

  /**
   * In every run in which nobody else writes the file, what is judged is a version this watcher put in place, and it
   * changes the document exactly when it is neither the last one recorded nor the current text, would not empty
   * a text, has no remembered write within the window (or the text is empty), and differs where the patch goes.
   */
  lemma OwnVersionFeedsBackExactlyWhen(text: Text, events: seq<Event>)
    requires Alone(events) && Run(Hydrated(text), events).seen.Some?
    ensures var d := Run(Hydrated(text), events);
            var own := d.seen.value;
            && own in {text} + Placed(Hydrated(text), events)
            && (Step(d, Judge).text != d.text <==>
                  && d.lastWritten != Some(own) && own != d.text && (own != [] || d.text == [])
                  && (d.text != [] ==> !Recent(d, own))
                  && Alters(d.text, Base(d), own))
  {
    OnlyOwnVersions(Hydrated(text), events, {text});
    ChangesExactlyWhenTaken(Run(Hydrated(text), events));
  }

  /** What is read is judged before anything but time goes on. */
  predicate Prompt(d: Document, events: seq<Event>)
    decreases |events|
  {
    events == [] ||
    ((d.seen.Some? ==> events[0].Judge? || events[0].Tick?) && Prompt(Step(d, events[0]), events[1..]))
  }

  /**
   * Between a rename and its record the file is the oldest write; otherwise, with the flag down, the last one recorded.
   */
  predicate Known(d: Document) {
    && (d.renamed ==> d.queue != [] && d.file == d.queue[0])
    && (!d.renamed && !d.writing ==> d.lastWritten == Some(d.file))
    && (d.seen.Some? ==> d.seen == Some(d.file) && !d.writing)
  }

  lemma {:induction false} StaysKnown(d: Document, events: seq<Event>)
    requires Known(d) && Alone(events) && Prompt(d, events)
    ensures Known(Run(d, events))
    decreases |events|
  {
    if events != [] {
      assert !events[0].Bounce?;
      StaysKnown(Step(d, events[0]), events[1..]);
    }
  }

  /**
   * Judged promptly, an own version is taken for an outside edit exactly between the rename and the record of a write
   * while the flag is down, an earlier write having ended, and only if it is none of the contents already known.
   */
  lemma PromptReadTakenExactlyWhen(text: Text, events: seq<Event>)
    requires Alone(events) && Prompt(Hydrated(text), events) && Run(Hydrated(text), events).seen.Some?
    ensures var d := Run(Hydrated(text), events);
            var own := d.seen.value;
            && !d.writing && (d.renamed ==> d.queue != [] && d.queue[0] == own)
            && (TakenAsEdit(d, own) <==>
                  && d.renamed && d.lastWritten != Some(own) && own != d.text
                  && (own != [] || d.text == []) && (d.text != [] ==> !Recent(d, own)))
  {
    StaysKnown(Hydrated(text), events);
  }

  // ---------------------------------------------------------------- two ways it happens

  /** Nothing is under way and the file, its record and the document agree. */
  predicate AtRest(d: Document) {
    !d.writing && d.queue == [] && !d.renamed && d.seen == None && d.lastWritten == Some(d.text) && d.file == d.text
  }

  lemma RunOn(d: Document, events: seq<Event>, k: nat, rest: seq<Event>)
    requires k < |events| && rest == events[k + 1..]
    ensures Run(d, events[k..]) == Run(Step(d, events[k]), rest)
  {
    assert events[k..][1..] == rest && events[k..][0] == events[k];
  }

  function Overlapping(a: Text, b: Text, c: Text): seq<Event> {
    [Remote(a), Remote(b), Remote(c), Rename, Complete, Rename, Read]
  }

  /** Three updates, one write ended and the next in place. */
  function Overlapped(d: Document, a: Text, b: Text, c: Text): Document {
    d.(text := c, file := b, own := true, lastWritten := Some(a), history := Pushed(d.history, Entry(Sha(a), d.now)),
       writing := false, queue := [b, c], renamed := true, seen := Some(b))
  }

  lemma Typed(d: Document, a: Text, b: Text, c: Text)
    requires AtRest(d)
    ensures Run(d, Overlapping(a, b, c)) ==
              Run(d.(text := c, writing := true, queue := [a, b, c]), Overlapping(a, b, c)[3..])
  {
    var events := Overlapping(a, b, c);
    assert events[0..] == events;
    var d1 := Step(d, events[0]);
    var d2 := Step(d1, events[1]);
    RunOn(d, events, 0, events[1..]);
    RunOn(d1, events, 1, events[2..]);
    RunOn(d2, events, 2, events[3..]);
    assert Step(d2, events[2]).queue == [a, b, c];
  }

  lemma ReadEarly(d: Document, a: Text, b: Text, c: Text, d3: Document)
    requires AtRest(d) && d3 == d.(text := c, writing := true, queue := [a, b, c])
    ensures Run(d3, Overlapping(a, b, c)[3..]) == Overlapped(d, a, b, c)
  {
    var events := Overlapping(a, b, c);
    var d4 := Step(d3, events[3]);
    var d5 := Step(d4, events[4]);
    assert d5.queue == [b, c];
    var d6 := Step(d5, events[5]);
    RunOn(d3, events, 3, events[4..]);
    RunOn(d4, events, 4, events[5..]);
    RunOn(d5, events, 5, events[6..]);
    RunOn(d6, events, 6, events[7..]);
    assert Step(d6, events[6]) == Overlapped(d, a, b, c);
    assert Run(Overlapped(d, a, b, c), events[7..]) == Overlapped(d, a, b, c);
  }

  /**
   * With three writes in flight the first to end says that none is, and the second, in place but not recorded, is read:
   * from any document at rest, exactly when it feeds back.
   */
  lemma OverlappingFeedsBackExactlyWhen(d: Document, a: Text, b: Text, c: Text)
    requires AtRest(d)
    ensures var late := Run(d, Overlapping(a, b, c));
            late == Overlapped(d, a, b, c)
            && (Step(late, Judge).text != c <==>
                  a != b && b != c && (b != [] || c == []) && (c != [] ==> !Recent(late, b)) && Alters(c, a, b))
            && (Step(late, Judge).text != c ==> Step(late, Judge).text == Patched(c, a, b))
  {
    Typed(d, a, b, c);
    ReadEarly(d, a, b, c, d.(text := c, writing := true, queue := [a, b, c]));
    ChangesExactlyWhenTaken(Overlapped(d, a, b, c));
  }

  function Stale(text: Text, ms: nat): seq<Event> {
    [Read, Remote(text), Rename, Complete, Tick(ms)]
  }

  /** Read before a write and judged after it. */
  function Overtaken(d: Document, text: Text, ms: nat): Document {
    d.(text := text, file := text, own := true, lastWritten := Some(text),
       history := Pushed(d.history, Entry(Sha(text), d.now)), seen := Some(d.text), now := d.now + ms)
  }

  lemma ReadTooSoon(d: Document, text: Text, ms: nat)
    requires AtRest(d)
    ensures Run(d, Stale(text, ms)) == Overtaken(d, text, ms)
  {
    var events := Stale(text, ms);
    assert events[0..] == events;
    var d1 := Step(d, events[0]);
    var d2 := Step(d1, events[1]);
    var d3 := Step(d2, events[2]);
    var d4 := Step(d3, events[3]);
    RunOn(d, events, 0, events[1..]);
    RunOn(d1, events, 1, events[2..]);
    RunOn(d2, events, 2, events[3..]);
    RunOn(d3, events, 3, events[4..]);
    RunOn(d4, events, 4, events[5..]);
    assert d4.queue == [] && Step(d4, events[4]) == Overtaken(d, text, ms);
    assert Run(Overtaken(d, text, ms), events[5..]) == Overtaken(d, text, ms);
  }

  /**
   * A content read before a write and judged after it undoes the write, from any document at rest, exactly when it
   * differs, would not empty the text, and was not itself written within the window.
   */
  lemma StaleReadRevertsExactlyWhen(d: Document, text: Text, ms: nat)
    requires AtRest(d)
    ensures var late := Run(d, Stale(text, ms));
            && (Step(late, Judge).text != text <==>
                  d.text != text && (d.text != [] || text == []) && (text != [] ==> !Recent(late, d.text)))
            && (Step(late, Judge).text != text ==> Step(late, Judge).text == d.text)
  {
    ReadTooSoon(d, text, ms);
    JudgedAgainstRecord(Overtaken(d, text, ms), text, d.text);
  }

  lemma JudgedAgainstRecord(late: Document, text: Text, content: Text)
    requires late.text == text && late.lastWritten == Some(text) && late.seen == Some(content)
    ensures Step(late, Judge).text != text <==>
              content != text && (content != [] || text == []) && (text != [] ==> !Recent(late, content))
    ensures Step(late, Judge).text != text ==> Step(late, Judge).text == content
  {
    ChangesExactlyWhenTaken(late);
    AltersItself(text, content);
    EditOfRecord(late, text, content);
  }

  lemma AltersItself(text: Text, content: Text)
    ensures Alters(text, text, content) <==> content != text
  {
    PatchOfBase(text, content);
    PatchAltersExactlyWhen(text, text, content);
  }

  lemma EditOfRecord(late: Document, text: Text, content: Text)
    requires late.text == text && late.lastWritten == Some(text) && late.seen == Some(content)
    ensures Step(late, Judge).text == text || Step(late, Judge).text == content
  {
    JudgedText(late);
    PatchOfBase(text, content);
  }

  // ---------------------------------------------------------------- with concrete texts

  const A: Text := [1]
  const AB: Text := [1, 2]
  const ABC: Text := [1, 2, 3]

  lemma SpanAtEnd()
    ensures Patched(ABC, A, AB) == [1, 2, 2, 3]
  {
    var s := SpanOf(A, AB);
    assert SamePrefix(A, AB, 1);
    assert s == Span(1, 0);
  }

  /** Typed once, the second unit is in the document twice. */
  lemma OverlappingWritesFeedBack()
    ensures Step(Run(Hydrated([]), Overlapping(A, AB, ABC)), Judge).text == [1, 2, 2, 3]
  {
    var late := Overlapped(Hydrated([]), A, AB, ABC);
    assert late.history == [Entry(Sha([]), 0), Entry(Sha(A), 0)];
    assert |A| == 1 && |AB| == 2 && |ABC| == 3;
    assert !Recent(late, AB);
    SpanAtEnd();
    PatchAltersExactlyWhen(ABC, A, AB);
    OverlappingFeedsBackExactlyWhen(Hydrated([]), A, AB, ABC);
  }

  /** A version a minute old comes back over the one just written. */
  lemma StaleReadRevertsEdit()
    ensures Step(Run(Hydrated(A), Stale(AB, 60_000)), Judge).text == A
  {
    var late := Overtaken(Hydrated(A), AB, 60_000);
    ReadTooSoon(Hydrated(A), AB, 60_000);
    assert late.history == [Entry(Sha(A), 0), Entry(Sha(AB), 0)];
    assert |A| == 1 && |AB| == 2;
    assert !Recent(late, A);
    StaleReadRevertsExactlyWhen(Hydrated(A), AB, 60_000);
  }
}
