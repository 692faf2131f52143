/**
 * src/terminal-server.js:726-840 over whole runs: what the browser receives does not depend on how the pty cuts its
 * stream.
 */
module TerminalGate {
  import opened HistoryFilter
  import opened TerminalSession

  datatype Event = Data(text: Text) | Flush | Timeout | Exit

  function Step(h: Header, s: Session, e: Event): Session {
    match e
    case Data(text) => Received(h, s, text)
    case Flush => Flushed(s)
    case Timeout => Released(s, s.preamble)
    case Exit => Exited(s)
  }

  function Run(h: Header, s: Session, events: seq<Event>): Session
    decreases |events|
  {
    if events == [] then s else Run(h, Step(h, s, events[0]), events[1..])
  }

  /** The whole stream the pty has written. */
  function Stream(events: seq<Event>): Text {
    if events == [] then []
    else (if events[0].Data? then events[0].text else []) + Stream(events[1..])
  }

  /** The timeout strikes, and the shell ends, only after the gate has opened. */
  predicate InTime(h: Header, s: Session, events: seq<Event>)
    decreases |events|
  {
    events == [] || ((events[0].Timeout? || events[0].Exit? ==> s.ready)
                     && InTime(h, Step(h, s, events[0]), events[1..]))
  }

  // ---------------------------------------------------------------- what has been sent

  function Payloads(frames: seq<Frame>): Text {
    if frames == [] then []
    else (if frames[0].Output? then frames[0].payload else []) + Payloads(frames[1..])
  }

  lemma {:induction false} PayloadsJoin(a: seq<Frame>, b: seq<Frame>)
    ensures Payloads(a + b) == Payloads(a) + Payloads(b)
  {
    if a == [] {
      assert a + b == b;
    } else {
      PayloadsJoin(a[1..], b);
      assert (a + b)[1..] == a[1..] + b && (a + b)[0] == a[0];
      Regroup(if a[0].Output? then a[0].payload else [], Payloads(a[1..]), Payloads(b));
    }
  }

  /** A cut loses nothing, and its frames are numbered without a gap, none empty, none over a chunk. */
  lemma {:induction false} CutIsExact(value: Text, sequence: nat)
    ensures var frames := Frames(value, sequence);
            && Payloads(frames) == value
            && forall i :: 0 <= i < |frames| ==>
                 frames[i].Output? && frames[i].sequence == sequence + 1 + i && 0 < |frames[i].payload| <= 16_384
    decreases |value|
  {
    if value != [] {
      if |value| > OUTPUT_CHUNK {
        CutIsExact(value[OUTPUT_CHUNK..], sequence + 1);
        assert value == value[..OUTPUT_CHUNK] + value[OUTPUT_CHUNK..];
      } else {
        assert Payloads([]) == [];
      }
    }
  }

  /** What has reached the browser or waits to be sent. */
  function Delivered(s: Session): Text {
    Payloads(s.frames) + s.output
  }

  ghost predicate Numbered(s: Session) {
    |s.frames| == s.sequence && forall i :: 0 <= i < |s.frames| ==> s.frames[i].sequence == i + 1
  }

  lemma FlushSendsAll(s: Session)
    ensures !s.closed ==> Delivered(Flushed(s)) == Delivered(s) && Flushed(s).output == []
    ensures Numbered(s) ==> Numbered(Flushed(s))
  {
    CutIsExact(s.output, s.sequence);
    PayloadsJoin(s.frames, Frames(s.output, s.sequence));
  }

  lemma OneMoreFrame(frames: seq<Frame>, last: Frame)
    requires !last.Output?
    ensures Payloads(frames + [last]) == Payloads(frames)
  {
    PayloadsJoin(frames, [last]);
    assert [last][1..] == [] && Payloads([last]) == [] + Payloads([]);
  }

  lemma QueueAddsAll(s: Session, data: Text)
    ensures var q := Queued(s, data);
            if q.closed then Payloads(q.frames) == Payloads(s.frames) else Delivered(q) == Delivered(s) + data
    ensures Numbered(s) ==> Numbered(Queued(s, data))
  {
    var bytes := s.outputBytes + ByteLength(data);
    if s.closed || data == [] {
      assert data == [] ==> Delivered(s) + data == Delivered(s);
    } else {
      QueueChanges(s, data, bytes);
      if bytes > MAX_OUTPUT_BYTES {
        OneMoreFrame(s.frames, Overflow(s.sequence + 1));
      } else {
        Regroup(Payloads(s.frames), s.output, data);
      }
    }
  }

  lemma QueueChanges(s: Session, data: Text, bytes: nat)
    requires !s.closed && data != [] && bytes == s.outputBytes + ByteLength(data)
    ensures var q := Queued(s, data);
            if bytes > MAX_OUTPUT_BYTES
            then q.closed && q.frames == s.frames + [Overflow(s.sequence + 1)] && q.sequence == s.sequence + 1
            else !q.closed && q.frames == s.frames && q.output == s.output + data && q.sequence == s.sequence
  {}

  /** What a shell that ends leaves unsent, it sends: the buffer, and before it is ready what was held back as well. */
  lemma ExitSendsAll(s: Session)
    ensures Numbered(s) ==> Numbered(Exited(s))
    ensures !s.closed ==>
      var r := Released(s, s.preamble);
      Payloads(Exited(s).frames) ==
        if r.closed then Payloads(s.frames) else Delivered(s) + if s.ready then [] else s.preamble
  {
    if !s.closed {
      var r := Released(s, s.preamble);
      ReleaseAddsAll(s);
      FlushSendsAll(r);
      OneMoreFrame(Flushed(r).frames, TerminalSession.Exit(Flushed(r).sequence + 1));
      ExitFrames(s, r, Flushed(r));
    }
  }

  lemma ReleaseAddsAll(s: Session)
    requires !s.closed
    ensures var r := Released(s, s.preamble);
            if r.closed then Payloads(r.frames) == Payloads(s.frames)
            else Delivered(r) == Delivered(s) + if s.ready then [] else s.preamble
    ensures Numbered(s) ==> Numbered(Released(s, s.preamble))
  {
    var open := s.(ready := true, preamble := []);
    QueueAddsAll(open, s.preamble);
    assert Delivered(open) == Delivered(s);
    assert Delivered(s) + [] == Delivered(s);
  }

  lemma ExitFrames(s: Session, r: Session, t: Session)
    requires !s.closed && r == Released(s, s.preamble) && t == Flushed(r)
    requires !r.closed ==> Delivered(t) == Delivered(r) && t.output == []
    ensures Exited(s).frames == t.frames + [TerminalSession.Exit(t.sequence + 1)]
    ensures Numbered(t) ==> Numbered(Exited(s))
    ensures Payloads(t.frames) == if r.closed then Payloads(r.frames) else Delivered(r)
  {
    assert Payloads(t.frames) + [] == Payloads(t.frames);
  }

  /** Frames leave a session numbered 1, 2, 3, … whatever happens to it. */
  lemma {:induction false} SentInOrder(h: Header, s: Session, events: seq<Event>)
    requires Numbered(s)
    ensures Numbered(Run(h, s, events))
    decreases |events|
  {
    if events != [] {
      var e := events[0];
      match e {
        case Flush => FlushSendsAll(s);
        case Timeout => QueueAddsAll(s.(ready := true, preamble := []), s.preamble);
        case Exit => ExitSendsAll(s);
        case Data(text) => ReceivedInOrder(h, s, text);
      }
      SentInOrder(h, Step(h, s, e), events[1..]);
    }
  }

  lemma ReceivedInOrder(h: Header, s: Session, text: Text)
    requires Numbered(s)
    ensures Numbered(Received(h, s, text))
  {
    var c, v := Captured(h, s, text), Capture(h, s.carry, text).visible;
    QueueAddsAll(c, v);
    var preamble := s.preamble + v;
    var at := IndexOf(preamble, READY_MARKER, 0);
    QueueAddsAll(c.(ready := true, preamble := []), if at != -1 then preamble[at + |READY_MARKER|..] else preamble);
  }

  // ---------------------------------------------------------------- the gate

  lemma FirstIsKept(a: Text, b: Text, pattern: Text)
    requires IndexOf(a, pattern, 0) != -1
    ensures IndexOf(a + b, pattern, 0) == IndexOf(a, pattern, 0)
  {
    var at := IndexOf(a, pattern, 0);
    assert (a + b)[at..at + |pattern|] == a[at..at + |pattern|];
    assert OccursAt(a + b, pattern, at);
    forall i | 0 <= i < at ensures !OccursAt(a + b, pattern, i) {
      assert !OccursAt(a, pattern, i);
      assert (a + b)[i..i + |pattern|] == a[i..i + |pattern|];
    }
  }

  lemma {:induction false} BytesGrow(p: Text, q: Text)
    ensures ByteLength(p) <= ByteLength(p + q)
    decreases |p|
  {
    if p != [] {
      assert (p + q)[1..] == p[1..] + q;
      BytesGrow(p[1..], q);
      if |p| > 1 {
        assert (p + q)[2..] == p[2..] + q;
        BytesGrow(p[2..], q);
      } else if 0xd800 <= p[0] < 0xdc00 {
        assert p[1..] == [];
      }
    }
  }

  /** Nothing but the text after the first marker is for the browser. */
  function Wanted(v: Text): Text {
    var at := IndexOf(v, READY_MARKER, 0);
    if at == -1 then [] else v[at + |READY_MARKER|..]
  }

  /** Before the marker's last unit no more than the limit is visible. */
  predicate Early(v: Text) {
    var at := IndexOf(v, READY_MARKER, 0);
    ByteLength(if at == -1 then v else v[..at + |READY_MARKER| - 1]) <= READY_MAX_BYTES
  }

  lemma WantedGrows(v: Text, more: Text)
    requires IndexOf(v, READY_MARKER, 0) != -1
    ensures IndexOf(v + more, READY_MARKER, 0) != -1 && Wanted(v + more) == Wanted(v) + more
  {
    FirstIsKept(v, more, READY_MARKER);
  }

  lemma NotYetTooLong(v: Text, more: Text)
    requires Early(v + more) && IndexOf(v, READY_MARKER, 0) == -1
    ensures ByteLength(v) <= READY_MAX_BYTES
  {
    var at := IndexOf(v + more, READY_MARKER, 0);
    if at == -1 {
      BytesGrow(v, more);
    } else {
      var end := at + |READY_MARKER|;
      EndsLater(v, more, READY_MARKER, at, end);
      var tail := more[..end - 1 - |v|];
      assert (v + more)[..end - 1] == v + tail;
      BytesGrow(v, tail);
    }
  }

  lemma EndsLater(v: Text, more: Text, pattern: Text, at: nat, end: nat)
    requires IndexOf(v, pattern, 0) == -1 && OccursAt(v + more, pattern, at) && end == at + |pattern|
    ensures |v| < end <= |v| + |more|
  {
    assert !OccursAt(v, pattern, at);
  }

  /** The gate after the visible text v: shut with all of it kept, or open with what follows the marker delivered. */
  ghost predicate GateAfter(s: Session, v: Text) {
    if s.closed then s.ready && Payloads(s.frames) <= Wanted(v)
    else if IndexOf(v, READY_MARKER, 0) == -1 then !s.ready && s.preamble == v && Delivered(s) == []
    else s.ready && Delivered(s) == Wanted(v)
  }

  lemma GateStep(s: Session, v: Text, more: Text, rest: Text)
    requires GateAfter(s, v) && Early(v + more + rest)
    ensures GateAfter(Gated(s, more), v + more)
  {
    if s.closed {
      ClosedGate(s, v, more);
    } else if s.ready {
      WantedGrows(v, more);
      QueueAddsAll(s, more);
      OpenGate(s, v, more);
    } else if IndexOf(v + more, READY_MARKER, 0) == -1 {
      NotYetTooLong(v + more, rest);
    } else {
      OpensGate(s, v + more);
    }
  }

  lemma ClosedGate(s: Session, v: Text, more: Text)
    requires s.closed && GateAfter(s, v)
    ensures GateAfter(s, v + more) && Gated(s, more) == s
  {
    if IndexOf(v, READY_MARKER, 0) != -1 { WantedGrows(v, more); }
  }

  lemma OpenGate(s: Session, v: Text, more: Text)
    requires !s.closed && s.ready && GateAfter(s, v) && Wanted(v + more) == Wanted(v) + more
    requires IndexOf(v + more, READY_MARKER, 0) != -1
    requires var q := Queued(s, more);
             if q.closed then Payloads(q.frames) == Payloads(s.frames) else Delivered(q) == Delivered(s) + more
    ensures GateAfter(Gated(s, more), v + more)
  {
    assert Payloads(s.frames) <= Delivered(s);
  }

  lemma OpensGate(s: Session, v: Text)
    requires !s.closed && !s.ready && Delivered(s) == [] && IndexOf(v, READY_MARKER, 0) != -1
    ensures GateAfter(Released(s.(preamble := v), Wanted(v)), v)
  {
    var open := s.(ready := true, preamble := []);
    assert Delivered(open) == Delivered(s);
    QueueAddsAll(open, Wanted(v));
    assert [] + Wanted(v) == Wanted(v);
  }

  // ---------------------------------------------------------------- filter and gate together

  ghost predicate After(h: Header, s: Session, a: Text) {
    && GateAfter(s, Strip(h, a).visible)
    && if s.closed then s.history <= Strip(h, a).lines
       else s.carry == Strip(h, a).carry && s.history == Strip(h, a).lines
  }

  predicate Fits(h: Header, t: Text) {
    FramesFit(h, t) && |Strip(h, t).carry| <= MAX_CARRY
  }

  /** One piece captures what the whole stream adds by it. */
  lemma PieceCaptured(h: Header, a: Text, data: Text, rest: Text)
    requires Fits(h, a + data + rest)
    ensures Strip(h, a + data) == Then(Strip(h, a), Capture(h, Strip(h, a).carry, data))
  {
    HeldTailsFit(h, a + data, rest);
    StripInPieces(h, a, data);
  }

  lemma Grows(h: Header, a: Text, b: Text) returns (more: Text)
    ensures Strip(h, a + b).visible == Strip(h, a).visible + more
  {
    StripInPieces(h, a, b);
    more := Strip(h, Strip(h, a).carry + b).visible;
  }

  /** To a closed session nothing happens any more, while the stream goes on. */
  lemma ClosedDataStep(h: Header, s: Session, a: Text, data: Text, rest: Text)
    requires s.closed && After(h, s, a) && Fits(h, a + data + rest)
    ensures After(h, s, a + data)
  {
    PieceCaptured(h, a, data, rest);
    var v, more := Strip(h, a).visible, Capture(h, Strip(h, a).carry, data).visible;
    if IndexOf(v, READY_MARKER, 0) != -1 { WantedGrows(v, more); }
  }

  lemma DataStep(h: Header, s: Session, a: Text, data: Text, rest: Text)
    requires !s.closed && After(h, s, a) && Fits(h, a + data + rest) && Early(Strip(h, a + data + rest).visible)
    ensures After(h, Received(h, s, data), a + data)
    ensures Received(h, s, data).history == Strip(h, a + data).lines
  {
    PieceCaptured(h, a, data, rest);
    var v, c := Strip(h, a).visible, Capture(h, s.carry, data);
    var after := Captured(h, s, data);
    assert Delivered(after) == Delivered(s);
    assert GateAfter(after, v);
    var more := Grows(h, a + data, rest);
    if c.visible == [] {
      assert v + [] == v;
    } else {
      GateStep(after, v, c.visible, more);
      GatedKeepsCapture(after, c.visible);
    }
  }

  lemma GatedKeepsCapture(s: Session, data: Text)
    ensures Gated(s, data).carry == s.carry && Gated(s, data).history == s.history
  {}

  /** What has been written once an event has happened. */
  function Written(a: Text, e: Event): Text {
    if e.Data? then a + e.text else a
  }

  lemma EventStep(h: Header, s: Session, a: Text, e: Event, rest: Text, t: Text)
    requires After(h, s, a) && (e.Timeout? || e.Exit? ==> s.ready)
    requires t == Written(a, e) + rest && Fits(h, t) && Early(Strip(h, t).visible)
    ensures After(h, Step(h, s, e), Written(a, e))
  {
    match e {
      case Data(text) =>
        if s.closed { ClosedDataStep(h, s, a, text, rest); } else { DataStep(h, s, a, text, rest); }
      case Flush => FlushSendsAll(s);
      case Timeout =>
      case Exit => ExitSendsAll(s);
    }
  }

  lemma RunStep(h: Header, s: Session, events: seq<Event>, e: Event, later: seq<Event>, next: Session, a: Text)
    requires events != [] && e == events[0] && later == events[1..] && next == Step(h, s, e)
    requires InTime(h, s, events)
    ensures Run(h, s, events) == Run(h, next, later) && InTime(h, next, later) && (e.Timeout? || e.Exit? ==> s.ready)
    ensures a + Stream(events) == Written(a, e) + Stream(later)
  {
    StreamStep(events, e, later, a);
  }

  lemma StreamStep(events: seq<Event>, e: Event, later: seq<Event>, a: Text)
    requires events != [] && e == events[0] && later == events[1..]
    ensures a + Stream(events) == Written(a, e) + Stream(later)
  {
    var text, more := if e.Data? then e.text else [], Stream(later);
    assert Stream(events) == text + more;
    Regroup(a, text, more);
  }

  /** Text put together in another order of steps. */
  lemma Regroup(a: Text, b: Text, c: Text)
    ensures a + (b + c) == a + b + c
    ensures b == [] ==> a + b + c == a + c
  {
    assert a + [] == a;
  }

  lemma {:induction false} RunDelivers(h: Header, s: Session, a: Text, events: seq<Event>, t: Text)
    requires After(h, s, a) && InTime(h, s, events)
    requires t == a + Stream(events) && Fits(h, t) && Early(Strip(h, t).visible)
    ensures After(h, Run(h, s, events), t)
    decreases |events|
  {
    if events == [] {
      assert t == a;
    } else {
      var e, later := events[0], events[1..];
      var next, b := Step(h, s, e), Written(a, e);
      RunStep(h, s, events, e, later, next, a);
      assert t == b + Stream(later);
      EventStep(h, s, a, e, Stream(later), t);
      RunDelivers(h, next, b, later, t);
    }
  }

  /**
   * However the pty cuts its stream and whenever frames are flushed, an open session has passed on exactly
   * the visible text after the first ready marker and recorded exactly the hidden lines. A closed one has passed on a
   * prefix of the one and recorded a prefix of the other.
   */
  lemma GateIsExact(h: Header, events: seq<Event>)
    requires InTime(h, FRESH, events)
    requires Fits(h, Stream(events)) && Early(Strip(h, Stream(events)).visible)
    ensures var s, t := Run(h, FRESH, events), Strip(h, Stream(events));
            && s.history <= t.lines && Payloads(s.frames) <= Wanted(t.visible)
            && (!s.closed ==> s.history == t.lines && Payloads(Flushed(s).frames) == Wanted(t.visible))
  {
    assert First(h, []) == Wait;
    StripWait(h, []);
    assert [] + Stream(events) == Stream(events);
    RunDelivers(h, FRESH, [], events, Stream(events));
    FlushSendsAll(Run(h, FRESH, events));
  }

  lemma ClosingStep(h: Header, s: Session, a: Text, e: Event, t: Text)
    requires After(h, s, a) && !s.closed && (e.Timeout? || e.Exit? ==> s.ready)
    requires t == Written(a, e) && Fits(h, t) && Early(Strip(h, t).visible)
    ensures Step(h, s, e).history == Strip(h, t).lines
  {
    match e
    case Data(text) =>
      assert a + text + [] == t;
      DataStep(h, s, a, text, []);
    case Flush =>
    case Timeout =>
    case Exit =>
  }

  lemma RunFrom(h: Header, s: Session, e: Event, later: seq<Event>)
    requires Step(h, s, e).closed
    ensures Run(h, s, [e] + later).history == Step(h, s, e).history
    ensures Run(h, s, [e] + later).frames == Step(h, s, e).frames
  {
    assert ([e] + later)[1..] == later;
    NothingAfterClose(h, Step(h, s, e), later);
  }

  /** What closes a session is recorded still: the lines up to the end of that piece, and none after it. */
  lemma HistoryEndsWithSession(h: Header, events: seq<Event>, e: Event, later: seq<Event>, t: Text)
    requires InTime(h, FRESH, events) && !Run(h, FRESH, events).closed
    requires (e.Timeout? || e.Exit? ==> Run(h, FRESH, events).ready) && Step(h, Run(h, FRESH, events), e).closed
    requires t == Written(Stream(events), e) && Fits(h, t) && Early(Strip(h, t).visible)
    ensures var s := Run(h, FRESH, events + ([e] + later));
            s.history == Strip(h, t).lines && s.frames == Step(h, Run(h, FRESH, events), e).frames
  {
    var s := Run(h, FRESH, events);
    UpTo(h, events, e, t);
    ClosingStep(h, s, Stream(events), e, t);
    RunsOn(h, FRESH, events, [e] + later);
    RunFrom(h, s, e, later);
  }

  lemma {:induction false} FittingPrefix(h: Header, a: Text, b: Text)
    requires FramesFit(h, a + b)
    ensures FramesFit(h, a)
    decreases |a|
  {
    if First(h, a).Take? {
      var n := First(h, a).n;
      FirstIsStable(h, a, b);
      assert (a + b)[n..] == a[n..] + b;
      FittingPrefix(h, a[n..], b);
    }
  }

  lemma EarlyPrefix(v: Text, more: Text)
    requires Early(v + more)
    ensures Early(v)
  {
    if IndexOf(v, READY_MARKER, 0) == -1 {
      NotYetTooLong(v, more);
    } else {
      FirstIsKept(v, more, READY_MARKER);
      var end := IndexOf(v, READY_MARKER, 0) + |READY_MARKER| - 1;
      assert (v + more)[..end] == v[..end];
    }
  }

  lemma UpTo(h: Header, events: seq<Event>, e: Event, t: Text)
    requires InTime(h, FRESH, events)
    requires t == Written(Stream(events), e) && Fits(h, t) && Early(Strip(h, t).visible)
    ensures After(h, Run(h, FRESH, events), Stream(events))
  {
    var a, more := Stream(events), if e.Data? then e.text else [];
    assert t == a + more;
    HeldTailsFit(h, a, more);
    FittingPrefix(h, a, more);
    var rest := Grows(h, a, more);
    EarlyPrefix(Strip(h, a).visible, rest);
    assert First(h, []) == Wait;
    StripWait(h, []);
    assert [] + a == a;
    RunDelivers(h, FRESH, [], events, a);
  }

  lemma {:induction false} RunsOn(h: Header, s: Session, a: seq<Event>, b: seq<Event>)
    ensures Run(h, s, a + b) == Run(h, Run(h, s, a), b)
    decreases |a|
  {
    if a == [] {
      assert a + b == b;
    } else {
      assert (a + b)[1..] == a[1..] + b;
      RunsOn(h, Step(h, s, a[0]), a[1..], b);
    }
  }

  lemma {:induction false} NothingAfterClose(h: Header, s: Session, events: seq<Event>)
    requires s.closed
    ensures var t := Run(h, s, events); t.closed && t.history == s.history && t.frames == s.frames
    decreases |events|
  {
    if events != [] { NothingAfterClose(h, Step(h, s, events[0]), events[1..]); }
  }

  // ---------------------------------------------------------------- with the header the shell hook sends

  /** What `GateIsExact` says of a stream, for the header the server looks for. */
  lemma ServerGateIsExact(events: seq<Event>)
    requires InTime(HISTORY_HEADER, FRESH, events)
    requires FramesFit(HISTORY_HEADER, Stream(events)) && |Strip(HISTORY_HEADER, Stream(events)).carry| <= MAX_CARRY
    requires Early(Strip(HISTORY_HEADER, Stream(events)).visible)
    ensures var s, t := Run(HISTORY_HEADER, FRESH, events), Strip(HISTORY_HEADER, Stream(events));
            && s.history <= t.lines && Payloads(s.frames) <= Wanted(t.visible)
            && (!s.closed ==> s.history == t.lines && Payloads(Flushed(s).frames) == Wanted(t.visible))
  {
    GateIsExact(HISTORY_HEADER, events);
  }

  /** And `ChunkingIndependence`. */
  lemma ServerFilterIsIndependent(t: Text)
    requires |Strip(HISTORY_HEADER, t).carry| <= MAX_CARRY
    ensures (forall pieces :: Concat(pieces) == t ==> Feed(HISTORY_HEADER, [], pieces) == Strip(HISTORY_HEADER, t))
            <==> FramesFit(HISTORY_HEADER, t)
  {
    ChunkingIndependence(HISTORY_HEADER, t);
  }

  /** One command line in a frame is taken out whole, and fits exactly up to the carry limit. */
  lemma LineFitsExactlyWhen(h: Header, line: Text, t: Text)
    requires t == h + line + [BEL] && BEL !in line
    ensures FramesFit(h, t) <==> |h| + |line| <= 8_192
    ensures Strip(h, t) == Stripped([], [line], [])
  {
    var end := |h| + |line|;
    assert t[end..end + 1] == [BEL];
    assert OccursAt(t, [BEL], end);
    forall i | |h| <= i < end ensures !OccursAt(t, [BEL], i) { assert t[i..i + 1] == [line[i - |h|]]; }
    assert IndexOf(t, [BEL], |h|) == end;
    assert t[|h|..end] == line;
    assert First(h, t) == Take([], [line], end + 1);
    assert t[end + 1..] == [];
    assert First(h, []) == Wait;
    StripWait(h, []);
    StripTake(h, t, First(h, t), []);
  }

  /** The server filters a line however the pty cuts it exactly when it has no more than 8171 units. */
  lemma ServerLineIsIndependent(line: Text, t: Text)
    requires t == HISTORY_HEADER + line + [BEL] && BEL !in line
    ensures (forall pieces :: Concat(pieces) == t ==> Feed(HISTORY_HEADER, [], pieces) == Strip(HISTORY_HEADER, t))
            <==> |line| <= 8171
  {
    LineFitsExactlyWhen(HISTORY_HEADER, line, t);
    ServerFilterIsIndependent(t);
  }

  /** So a line of 8172 units shows up in some terminal. */
  lemma LongLineShows(line: Text, t: Text)
    requires line == seq(8172, _ => 97) && t == HISTORY_HEADER + line + [BEL]
    ensures exists pieces :: Concat(pieces) == t && Feed(HISTORY_HEADER, [], pieces) != Strip(HISTORY_HEADER, t)
  {
    ServerLineIsIndependent(line, t);
  }
}
