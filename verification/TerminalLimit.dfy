/**
 * When a terminal session closes over its buffer limit (src/terminal-server.js:794-840): over whole runs, exactly when
 * more than 256 KiB were queued since the last flush.
 */
module TerminalLimit {
  import opened HistoryFilter
  import opened TerminalSession
  import opened TerminalGate

  /** What an event lets through the gate of an open session. */
  function LetThrough(h: Header, s: Session, e: Event): Text {
    match e
    case Data(text) => Opened(s, Capture(h, s.carry, text).visible)
    case Flush => []
    case Timeout => if s.ready then [] else s.preamble
    case Exit => if s.ready then [] else s.preamble
  }

  /** A ready session shows everything; before that, what follows the marker, or all of a preamble of over 64 KiB. */
  function Opened(s: Session, visible: Text): Text {
    if s.ready then visible
    else if visible == [] then []
    else
      var preamble := s.preamble + visible;
      var at := IndexOf(preamble, READY_MARKER, 0);
      if at != -1 then preamble[at + |READY_MARKER|..] else if ByteLength(preamble) > 65536 then preamble else []
  }

  /** The bytes let through since the last flush, piece by piece. */
  function SinceFlush(h: Header, events: seq<Event>): nat {
    if events == [] then 0
    else
      var before, e := events[..|events| - 1], events[|events| - 1];
      if e.Flush? then 0 else SinceFlush(h, before) + ByteLength(LetThrough(h, Run(h, FRESH, before), e))
  }

  /** The session counts exactly those bytes, and holds none when its buffer is empty. */
  predicate Counts(s: Session, bytes: nat) {
    s.outputBytes == bytes && (s.output == [] <==> bytes == 0)
  }

  lemma {:induction false} SomeBytes(t: Text)
    ensures ByteLength(t) == 0 <==> t == []
    ensures |t| <= ByteLength(t)
    decreases |t|
  {
    if |t| > 0 { SomeBytes(t[1..]); }
    if |t| > 1 { SomeBytes(t[2..]); }
  }

  // ---------------------------------------------------------------- one event

  predicate HasOverflow(frames: seq<Frame>) {
    exists i :: 0 <= i < |frames| && frames[i].Overflow?
  }

  /** What queueing does to the count, the frames and the session. */
  lemma QueueCounts(s: Session, data: Text)
    requires !s.closed && Counts(s, s.outputBytes) && !HasOverflow(s.frames)
    ensures var q, bytes := Queued(s, data), s.outputBytes + ByteLength(data);
            if bytes > 262144 && data != [] then q.closed && HasOverflow(q.frames)
            else !q.closed && Counts(q, bytes) && q.frames == s.frames
  {
    SomeBytes(data);
    if data != [] {
      QueueChanges(s, data, s.outputBytes + ByteLength(data));
      if s.outputBytes + ByteLength(data) > 262144 {
        assert Queued(s, data).frames[|s.frames|].Overflow?;
      }
    }
  }

  lemma FlushCounts(s: Session)
    requires !s.closed && !HasOverflow(s.frames) && (s.output == [] ==> s.outputBytes == 0)
    ensures var t := Flushed(s); !t.closed && Counts(t, 0) && !HasOverflow(t.frames)
  {
    CutIsExact(s.output, s.sequence);
  }

  /** The preamble a session waits with is bounded, so that giving it up overflows nothing. */
  predicate Waiting(s: Session) {
    !s.ready ==> s.outputBytes == 0 && ByteLength(s.preamble) <= 65536
  }

  ghost predicate Sound(s: Session, bytes: nat) {
    !s.closed && Counts(s, bytes) && !HasOverflow(s.frames) && Waiting(s) && bytes <= 262144
  }

  lemma DataCounts(h: Header, s: Session, text: Text)
    requires Sound(s, s.outputBytes)
    ensures var t, bytes := Received(h, s, text), s.outputBytes + ByteLength(LetThrough(h, s, Data(text)));
            if bytes > 262144 then t.closed && HasOverflow(t.frames) else Sound(t, bytes)
  {
    var c, visible := Captured(h, s, text), Capture(h, s.carry, text).visible;
    SomeBytes(LetThrough(h, s, Data(text)));
    if visible != [] {
      GateCounts(c, visible);
    }
  }

  lemma GateCounts(s: Session, visible: Text)
    requires Sound(s, s.outputBytes) && visible != []
    ensures var t, bytes := Gated(s, visible), s.outputBytes + ByteLength(Opened(s, visible));
            if bytes > 262144 then t.closed && HasOverflow(t.frames) else Sound(t, bytes)
  {
    var preamble, data := s.preamble + visible, Opened(s, visible);
    SomeBytes(data);
    if s.ready {
      QueueCounts(s, visible);
    } else if IndexOf(preamble, READY_MARKER, 0) != -1 || ByteLength(preamble) > 65536 {
      var open := s.(ready := true, preamble := []);
      QueueCounts(open, data);
      assert Gated(s, visible) == Queued(open, data);
    }
  }

  lemma ReleaseCounts(s: Session)
    requires Sound(s, s.outputBytes)
    ensures var data := if s.ready then [] else s.preamble;
            && s.outputBytes + ByteLength(data) <= 262144
            && Sound(Released(s, s.preamble), s.outputBytes + ByteLength(data))
  {
    SomeBytes([]);
    if !s.ready { QueueCounts(s.(ready := true, preamble := []), s.preamble); }
  }

  // ---------------------------------------------------------------- whole runs

  lemma {:induction false} RunLast(h: Header, s: Session, events: seq<Event>)
    requires events != []
    ensures Run(h, s, events) == Step(h, Run(h, s, events[..|events| - 1]), events[|events| - 1])
    decreases |events|
  {
    if |events| > 1 {
      RunLast(h, Step(h, s, events[0]), events[1..]);
      assert events[1..][..|events| - 2] == events[..|events| - 1][1..];
    } else {
      assert events[1..] == [] && events[..0] == [];
    }
  }

  /** At some step of the run, of a session still open, the bytes since the last flush go over 256 KiB. */
  predicate GoesOver(h: Header, events: seq<Event>) {
    exists j :: 0 < j <= |events| && OverAt(h, events, j)
  }

  predicate OverAt(h: Header, events: seq<Event>, j: nat)
    requires 0 < j <= |events|
  {
    !Run(h, FRESH, events[..j - 1]).closed && SinceFlush(h, events[..j]) > 262144
  }

  lemma OverAtPrefix(h: Header, events: seq<Event>, before: seq<Event>, j: nat)
    requires events != [] && before == events[..|events| - 1] && 0 < j <= |before|
    ensures OverAt(h, events, j) <==> OverAt(h, before, j)
  {
    assert events[..j] == before[..j] && events[..j - 1] == before[..j - 1];
  }

  lemma GoesOverLast(h: Header, events: seq<Event>)
    requires events != []
    ensures GoesOver(h, events) <==> GoesOver(h, events[..|events| - 1]) || OverAt(h, events, |events|)
  {
    var before := events[..|events| - 1];
    if GoesOver(h, events) {
      var j :| 0 < j <= |events| && OverAt(h, events, j);
      if j < |events| { OverAtPrefix(h, events, before, j); }
    }
    if GoesOver(h, before) {
      var j :| 0 < j <= |before| && OverAt(h, before, j);
      OverAtPrefix(h, events, before, j);
    }
  }

  /** Of an open session: what it counts, and that it is sound; of a closed one: why it closed. */
  lemma {:induction false} RunCounts(h: Header, events: seq<Event>)
    ensures var s := Run(h, FRESH, events);
            && (!s.closed ==> Sound(s, SinceFlush(h, events)))
            && (HasOverflow(s.frames) <==> GoesOver(h, events))
  {
    if events == [] {
      SomeBytes([]);
    } else {
      var before, e := events[..|events| - 1], events[|events| - 1];
      var s := Run(h, FRESH, before);
      RunCounts(h, before);
      RunLast(h, FRESH, events);
      GoesOverLast(h, events);
      assert events[..|events|] == events;
      if s.closed { ClosedStays(h, s, e); } else { EventCounts(h, s, e, SinceFlush(h, before), SinceFlush(h, events)); }
    }
  }

  lemma ClosedStays(h: Header, s: Session, e: Event)
    requires s.closed
    ensures Step(h, s, e).closed && Step(h, s, e).frames == s.frames
  {}

  lemma EventCounts(h: Header, s: Session, e: Event, before: nat, after: nat)
    requires Sound(s, before) && after == if e.Flush? then 0 else before + ByteLength(LetThrough(h, s, e))
    ensures var t := Step(h, s, e);
            && (HasOverflow(t.frames) <==> after > 262144)
            && (!t.closed ==> Sound(t, after))
  {
    match e
    case Data(text) => DataCounts(h, s, text);
    case Flush => FlushCounts(s);
    case Timeout => ReleaseCounts(s);
    case Exit => ExitCounts(s);
  }

  lemma ExitCounts(s: Session)
    requires Sound(s, s.outputBytes)
    ensures Exited(s).closed && !HasOverflow(Exited(s).frames)
    ensures s.outputBytes + ByteLength(if s.ready then [] else s.preamble) <= 262144
  {
    ReleaseCounts(s);
    FlushCounts(Released(s, s.preamble));
    var t := Flushed(Released(s, s.preamble));
    assert Exited(s).frames == t.frames + [TerminalSession.Exit(t.sequence + 1)];
  }

  /** While a session is open it counts the bytes queued since the last flush, none when nothing is buffered. */
  lemma OpenCounts(h: Header, events: seq<Event>)
    requires !Run(h, FRESH, events).closed
    ensures var s := Run(h, FRESH, events);
            s.outputBytes == SinceFlush(h, events) <= 262144 && (s.output == [] <==> SinceFlush(h, events) == 0)
  {
    RunCounts(h, events);
  }

  /** It is closed with an overflow exactly when, while open, more than 256 KiB came since the last flush. */
  lemma OverflowsExactlyWhen(h: Header, events: seq<Event>)
    ensures HasOverflow(Run(h, FRESH, events).frames) <==> GoesOver(h, events)
  {
    RunCounts(h, events);
  }

  /** So it closes for one of two reasons only: the shell ended, or it overflowed. */
  lemma {:induction false} ClosesExactlyWhen(h: Header, events: seq<Event>)
    ensures Run(h, FRESH, events).closed <==> (exists e :: e in events && e.Exit?) || GoesOver(h, events)
  {
    if events != [] {
      var before, e := events[..|events| - 1], events[|events| - 1];
      var s := Run(h, FRESH, before);
      assert events == before + [e];
      ClosesExactlyWhen(h, before);
      RunLast(h, FRESH, events);
      GoesOverLast(h, events);
      RunCounts(h, before);
      RunCounts(h, events);
      if s.closed { ClosedStays(h, s, e); } else { OpenStep(h, s, e, SinceFlush(h, before)); }
    }
  }

  lemma OpenStep(h: Header, s: Session, e: Event, before: nat)
    requires Sound(s, before)
    ensures Step(h, s, e).closed <==> e.Exit? || HasOverflow(Step(h, s, e).frames)
  {
    match e
    case Data(text) => DataCounts(h, s, text);
    case Flush => FlushCounts(s);
    case Timeout => ReleaseCounts(s);
    case Exit => ExitCounts(s);
  }

  // ---------------------------------------------------------------- timers and what a closed session holds

  /** A flush is due exactly while something is buffered; a session that is ready, or closed, holds nothing back. */
  predicate Tidy(s: Session) {
    && (s.timer <==> s.output != [])
    && (s.ready ==> s.preamble == [])
    && (s.closed ==> s.output == [] && s.outputBytes == 0 && s.preamble == [])
  }

  lemma QueueIsTidy(s: Session, data: Text)
    requires Tidy(s)
    ensures Tidy(Queued(s, data))
  {}

  lemma StepIsTidy(h: Header, s: Session, e: Event)
    requires Tidy(s)
    ensures Tidy(Step(h, s, e))
  {
    match e
    case Data(text) => if !s.closed { GatedIsTidy(Captured(h, s, text), Capture(h, s.carry, text).visible); }
    case Flush =>
    case Timeout => ReleasedIsTidy(s, s.preamble);
    case Exit =>
  }

  lemma ReleasedIsTidy(s: Session, tail: Text)
    requires s.timer <==> s.output != []
    requires s.closed || s.ready ==> Tidy(s)
    ensures Tidy(Released(s, tail))
  {
    if !s.ready && !s.closed { QueueIsTidy(s.(ready := true, preamble := []), tail); }
  }

  lemma GatedIsTidy(s: Session, data: Text)
    requires Tidy(s) && !s.closed
    ensures Tidy(Gated(s, data))
  {
    if s.ready {
      QueueIsTidy(s, data);
    } else {
      var preamble := s.preamble + data;
      var at := IndexOf(preamble, READY_MARKER, 0);
      ReleasedIsTidy(s.(preamble := preamble), if at != -1 then preamble[at + |READY_MARKER|..] else preamble);
    }
  }

  /** So nothing is ever buffered without a flush to come, whatever the shell prints and when. */
  lemma {:induction false} RunIsTidy(h: Header, events: seq<Event>)
    ensures Tidy(Run(h, FRESH, events))
  {
    if events != [] {
      RunIsTidy(h, events[..|events| - 1]);
      RunLast(h, FRESH, events);
      StepIsTidy(h, Run(h, FRESH, events[..|events| - 1]), events[|events| - 1]);
    }
  }

  // ---------------------------------------------------------------- when the gate opens

  /** Everything the filter has let through while the session was open. */
  function Seen(h: Header, events: seq<Event>): Text {
    if events == [] then []
    else
      var before, e := events[..|events| - 1], events[|events| - 1];
      Seen(h, before) + Shown(h, Run(h, FRESH, before), e)
  }

  function Shown(h: Header, s: Session, e: Event): Text {
    if e.Data? && !s.closed then Capture(h, s.carry, e.text).visible else []
  }

  /** The marker was seen, or more than 64 KiB were. */
  predicate Enough(seen: Text) {
    IndexOf(seen, READY_MARKER, 0) != -1 || ByteLength(seen) > 65_536
  }

  lemma EnoughStays(seen: Text, more: Text)
    requires Enough(seen)
    ensures Enough(seen + more)
  {
    if IndexOf(seen, READY_MARKER, 0) != -1 { FirstIsKept(seen, more, READY_MARKER); } else { BytesGrow(seen, more); }
  }

  predicate Interrupted(events: seq<Event>) {
    exists e :: e in events && (e.Timeout? || e.Exit?)
  }

  /** A session not ready yet is open and holds back all it has seen. */
  predicate HoldsBack(s: Session, seen: Text) {
    !s.ready ==> !s.closed && s.preamble == seen
  }

  lemma QueuedStaysReady(s: Session, data: Text)
    ensures Queued(s, data).ready == s.ready
  {}

  lemma DataOpens(h: Header, s: Session, text: Text, seen: Text, more: Text)
    requires !s.ready && !s.closed && s.preamble == seen && !Enough(seen)
    requires more == Capture(h, s.carry, text).visible
    ensures var t := Received(h, s, text);
            (t.ready <==> Enough(seen + more)) && HoldsBack(t, seen + more)
  {
    assert seen + [] == seen;
    var preamble := s.preamble + more;
    var at := IndexOf(preamble, READY_MARKER, 0);
    QueuedStaysReady(Captured(h, s, text).(ready := true, preamble := []),
                     if at != -1 then preamble[at + |READY_MARKER|..] else preamble);
  }

  lemma ReadyStays(h: Header, s: Session, e: Event)
    requires s.ready
    ensures Step(h, s, e).ready
  {}

  lemma EndOpens(h: Header, s: Session, e: Event)
    requires e.Timeout? || e.Exit?
    requires s.closed ==> s.ready
    ensures Step(h, s, e).ready
  {}

  /** The gate is open exactly when the session was interrupted or has seen enough. */
  predicate OpenWhen(s: Session, seen: Text, interrupted: bool) {
    HoldsBack(s, seen) && (s.ready <==> interrupted || Enough(seen))
  }

  lemma OpeningStep(h: Header, s: Session, e: Event, seen: Text, more: Text, interrupted: bool)
    requires OpenWhen(s, seen, interrupted) && more == Shown(h, s, e)
    ensures OpenWhen(Step(h, s, e), seen + more, interrupted || e.Timeout? || e.Exit?)
  {
    if s.ready {
      ReadyStays(h, s, e);
      if Enough(seen) { EnoughStays(seen, more); }
    } else if e.Data? {
      DataOpens(h, s, e.text, seen, more);
    } else if e.Flush? {
      assert seen + more == seen;
    } else {
      EndOpens(h, s, e);
    }
  }

  lemma InterruptedLast(events: seq<Event>)
    requires events != []
    ensures var before, e := events[..|events| - 1], events[|events| - 1];
            Interrupted(events) <==> Interrupted(before) || e.Timeout? || e.Exit?
  {
    assert events == events[..|events| - 1] + [events[|events| - 1]];
    assert events[|events| - 1] in events;
  }

  /** The output is let through exactly from the timeout, the shell's end, the marker, or 64 KiB without it. */
  lemma {:induction false} OpensExactlyWhen(h: Header, events: seq<Event>)
    ensures OpenWhen(Run(h, FRESH, events), Seen(h, events), Interrupted(events))
  {
    if events != [] {
      var before, e := events[..|events| - 1], events[|events| - 1];
      OpensExactlyWhen(h, before);
      RunLast(h, FRESH, events);
      InterruptedLast(events);
      var s := Run(h, FRESH, before);
      OpeningStep(h, s, e, Seen(h, before), Shown(h, s, e), Interrupted(before));
    } else {
      NothingIsNotEnough();
    }
  }

  lemma NothingIsNotEnough()
    ensures !Enough([])
  {}

  // ---------------------------------------------------------------- what is counted

  /** The code points of a string of UTF-16 units; a surrogate by itself is the replacement character. */
  function CodePoints(t: Text): seq<bv32> {
    if t == [] then []
    else if IsPair(t) then [PairPoint(t[0], t[1])] + CodePoints(t[2..])
    else [UnitPoint(t[0])] + CodePoints(t[1..])
  }

  predicate IsPair(t: Text) {
    |t| > 1 && 0xd800 <= t[0] < 0xdc00 && 0xdc00 <= t[1] < 0xe000
  }

  /** Ten bits of each, above the first 0x10000 points. */
  function PairPoint(high: Unit, low: Unit): bv32 {
    0x10000 + PairBits((high & 0x3ff) as bv32, (low & 0x3ff) as bv32)
  }

  function PairBits(high: bv32, low: bv32): bv32 {
    (high << 10) | low
  }

  function UnitPoint(unit: Unit): bv32 {
    if 0xd800 <= unit < 0xe000 then 0xfffd else unit as bv32
  }

  /** A code point in UTF-8. */
  function Encoded(point: bv32): seq<bv32> {
    if point < 0x80 then [point]
    else if point < 0x800 then [0xc0 | (point >> 6), Continued(point)]
    else if point < 0x10000 then [0xe0 | (point >> 12), Continued(point >> 6), Continued(point)]
    else [0xf0 | (point >> 18), Continued(point >> 12), Continued(point >> 6), Continued(point)]
  }

  function Continued(bits: bv32): bv32 {
    0x80 | (bits & 0x3f)
  }

  function Utf8(points: seq<bv32>): seq<bv32> {
    if points == [] then [] else Encoded(points[0]) + Utf8(points[1..])
  }

  lemma Utf8First(point: bv32, rest: seq<bv32>)
    ensures |Utf8([point] + rest)| == |Encoded(point)| + |Utf8(rest)|
  {
    assert ([point] + rest)[1..] == rest;
  }

  lemma TenBits(unit: Unit)
    ensures (unit & 0x3ff) as bv32 <= 0x3ff
  {}

  lemma TwentyBits(high: bv32, low: bv32)
    requires high <= 0x3ff && low <= 0x3ff
    ensures PairBits(high, low) <= 0xfffff
  {}

  lemma PairTakesFour(high: Unit, low: Unit)
    ensures |Encoded(PairPoint(high, low))| == 4
  {
    TenBits(high);
    TenBits(low);
    TwentyBits((high & 0x3ff) as bv32, (low & 0x3ff) as bv32);
  }

  lemma UnitTakes(unit: Unit)
    ensures |Encoded(UnitPoint(unit))| == if unit < 0x80 then 1 else if unit < 0x800 then 2 else 3
  {}

  /** What is counted against the limits is the length in UTF-8. */
  lemma {:induction false} ByteLengthIsUtf8(t: Text)
    ensures ByteLength(t) == |Utf8(CodePoints(t))|
  {
    if t != [] {
      if IsPair(t) {
        ByteLengthIsUtf8(t[2..]);
        PairTakesFour(t[0], t[1]);
        Utf8First(PairPoint(t[0], t[1]), CodePoints(t[2..]));
      } else {
        ByteLengthIsUtf8(t[1..]);
        UnitTakes(t[0]);
        Utf8First(UnitPoint(t[0]), CodePoints(t[1..]));
      }
    }
  }
}
