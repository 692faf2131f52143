/** src/terminal-server.js:755-840: one terminal session, from pty data to the frames sent to the browser. */
module TerminalSession {
  import opened HistoryFilter

  // ESC ] 7 7 7 ; g i t p i g e o n - r e a d y BEL
  const READY_MARKER: Text :=
    [ESC, 93, 55, 55, 55, 59, 103, 105, 116, 112, 105, 103, 101, 111, 110, 45, 114, 101, 97, 100, 121, BEL]
  const READY_MAX_BYTES: nat := 65_536
  const MAX_OUTPUT_BYTES: nat := 256 * 1024
  const OUTPUT_CHUNK: nat := 16 * 1024

  // ---------------------------------------------------------------- the capture loop

  /** Neither a header nor something that may become one starts here. */
  predicate Plain(h: Header, t: Text) {
    !Held(h, t) && !(h <= t)
  }

  lemma OneUnit(h: Header, t: Text, rest: Text)
    requires Plain(h, t) && rest == t[1..]
    ensures Strip(h, t) == Then(Stripped([t[0]], [], []), Strip(h, rest))
  {
    StripTake(h, t, First(h, t), rest);
  }

  lemma {:induction false} SkipPlain(h: Header, t: Text, k: nat)
    requires k <= |t| && forall i :: 0 <= i < k ==> Plain(h, t[i..])
    ensures Strip(h, t) == Then(Stripped(t[..k], [], []), Strip(h, t[k..]))
  {
    var rest := Strip(h, t[k..]);
    if k == 0 {
      assert t[0..] == t && [] + rest.visible == rest.visible && [] + rest.lines == rest.lines;
    } else {
      SkipPlain(h, t, k - 1);
      assert t[k - 1..][1..] == t[k..];
      OneUnit(h, t[k - 1..], t[k..]);
      assert t[..k] == t[..k - 1] + [t[k - 1]];
      ThenAssociative(Stripped(t[..k - 1], [], []), Stripped([t[k - 1]], [], []), rest);
    }
  }

  lemma NotHere(h: Header, t: Text, i: nat)
    requires i <= |t|
    ensures h <= t[i..] <==> OccursAt(t, h, i)
  {
    if i + |h| <= |t| { assert t[i..][..|h|] == t[i..i + |h|]; }
  }

  lemma PlainBeforeHeader(h: Header, t: Text, i: nat, start: nat)
    requires i < start && OccursAt(t, h, start) && !OccursAt(t, h, i)
    ensures Plain(h, t[i..])
  {
    NotHere(h, t, i);
  }

  lemma SkipTo(h: Header, t: Text, cursor: nat, k: nat)
    requires cursor <= k <= |t| && forall i :: cursor <= i < k ==> Plain(h, t[i..])
    ensures Strip(h, t[cursor..]) == Then(Stripped(t[cursor..k], [], []), Strip(h, t[k..]))
  {
    var u, n := t[cursor..], k - cursor;
    forall i | 0 <= i < n ensures Plain(h, u[i..]) { assert u[i..] == t[cursor + i..]; }
    SkipPlain(h, u, n);
    assert u[..n] == t[cursor..k] && u[n..] == t[k..];
  }

  /** Up to the next header everything is shown. */
  lemma SkipToHeader(h: Header, t: Text, cursor: nat, start: nat)
    requires cursor <= start && OccursAt(t, h, start) && forall i :: cursor <= i < start ==> !OccursAt(t, h, i)
    ensures Strip(h, t[cursor..]) == Then(Stripped(t[cursor..start], [], []), Strip(h, t[start..]))
  {
    forall i | cursor <= i < start ensures Plain(h, t[i..]) { PlainBeforeHeader(h, t, i, start); }
    SkipTo(h, t, cursor, start);
  }

  /** A held tail begins at the last ESC, since a header has its only ESC in front. */
  lemma HeldAtLastEscape(h: Header, t: Text, i: nat)
    requires i < |t| && Held(h, t[i..])
    ensures LastIndexOf(t, ESC) == i
  {
    var u := t[i..];
    assert u[0] == h[0] == ESC && t[i] == u[0];
    forall j | i < j < |t| ensures t[j] != ESC { assert t[j] == u[j - i] == h[j - i] == h[1..][j - i - 1]; }
    var escape := LastIndexOf(t, ESC);
    assert t[i] in t;
  }

  /** Where the tail to hold begins when no header is left after the cursor. */
  function HoldFrom(h: Header, t: Text, cursor: nat): (k: nat)
    requires cursor <= |t|
    ensures cursor <= k <= |t|
  {
    var escape := LastIndexOf(t, ESC);
    if escape >= cursor && escape >= |t| - |h| && t[escape..] <= h then escape else |t|
  }

  lemma HoldsTheTail(h: Header, t: Text, cursor: nat, k: nat)
    requires cursor <= |t| && k == HoldFrom(h, t, cursor) && forall i :: i >= cursor ==> !OccursAt(t, h, i)
    ensures Strip(h, t[cursor..]) == Stripped(t[cursor..k], [], t[k..])
  {
    forall i | cursor <= i < k ensures Plain(h, t[i..]) { PlainBeforeHold(h, t, cursor, i); }
    SkipTo(h, t, cursor, k);
    TailWaits(h, t, cursor, k);
    assert t[cursor..k] + [] == t[cursor..k];
  }

  lemma PlainBeforeHold(h: Header, t: Text, cursor: nat, i: nat)
    requires cursor <= |t| && cursor <= i < HoldFrom(h, t, cursor) && !OccursAt(t, h, i)
    ensures Plain(h, t[i..])
  {
    NotHere(h, t, i);
    if Held(h, t[i..]) { HeldAtLastEscape(h, t, i); }
  }

  lemma TailWaits(h: Header, t: Text, cursor: nat, k: nat)
    requires cursor <= |t| && k == HoldFrom(h, t, cursor) && !OccursAt(t, h, k)
    ensures Strip(h, t[k..]) == Stripped([], [], t[k..])
  {
    NotHere(h, t, k);
    assert Held(h, t[k..]);
    StripWait(h, t[k..]);
  }

  // ---------------------------------------------------------------- the session's state

  datatype Frame = Output(sequence: nat, payload: Text) | Overflow(sequence: nat) | Exit(sequence: nat)

  datatype Session = Session(
    carry: Text, preamble: Text, ready: bool,
    output: Text, outputBytes: nat, timer: bool, closed: bool,
    sequence: nat, frames: seq<Frame>, history: seq<Text>)

  const FRESH: Session := Session([], [], false, [], 0, false, false, 0, [], [])

  /** Buffer.byteLength: the UTF-8 length of a string of code units. */
  function ByteLength(t: Text): nat {
    if t == [] then 0
    else if t[0] < 0x80 then 1 + ByteLength(t[1..])
    else if t[0] < 0x800 then 2 + ByteLength(t[1..])
    else if 0xd800 <= t[0] < 0xdc00 && |t| > 1 && 0xdc00 <= t[1] < 0xe000 then 4 + ByteLength(t[2..])
    else 3 + ByteLength(t[1..])
  }

  function Closed(s: Session): Session {
    s.(closed := true, timer := false, preamble := [], output := [], outputBytes := 0)
  }

  function Queued(s: Session, data: Text): Session {
    if s.closed || data == [] then s
    else
      var bytes := s.outputBytes + ByteLength(data);
      if bytes > MAX_OUTPUT_BYTES
      then Closed(s.(sequence := s.sequence + 1, frames := s.frames + [Overflow(s.sequence + 1)]))
      else s.(output := s.output + data, outputBytes := bytes, timer := true)
  }

  function Released(s: Session, tail: Text): Session {
    if s.ready || s.closed then s else Queued(s.(ready := true, preamble := []), tail)
  }

  function Gated(s: Session, data: Text): Session {
    if s.ready then Queued(s, data)
    else
      var preamble := s.preamble + data;
      var at := IndexOf(preamble, READY_MARKER, 0);
      if at != -1 then Released(s.(preamble := preamble), preamble[at + |READY_MARKER|..])
      else if ByteLength(preamble) > READY_MAX_BYTES then Released(s.(preamble := preamble), preamble)
      else s.(preamble := preamble)
  }

  function Captured(h: Header, s: Session, data: Text): Session {
    var c := Capture(h, s.carry, data);
    s.(carry := c.carry, history := s.history + c.lines)
  }

  /** A closed session's data handler is disposed of. */
  function Received(h: Header, s: Session, data: Text): Session {
    var visible := Capture(h, s.carry, data).visible;
    if s.closed then s else if visible == [] then Captured(h, s, data) else Gated(Captured(h, s, data), visible)
  }

  /** The buffered output cut into frames no longer than a chunk. */
  function Frames(value: Text, sequence: nat): seq<Frame> {
    if value == [] then []
    else if |value| <= OUTPUT_CHUNK then [Output(sequence + 1, value)]
    else [Output(sequence + 1, value[..OUTPUT_CHUNK])] + Frames(value[OUTPUT_CHUNK..], sequence + 1)
  }

  function Flushed(s: Session): Session {
    if s.closed || s.output == [] then s.(timer := false)
    else
      var frames := Frames(s.output, s.sequence);
      s.(timer := false, output := [], outputBytes := 0, frames := s.frames + frames, sequence := s.sequence + |frames|)
  }

  /** A shell that ends shows what was held back, empties its buffer and says so. */
  function Exited(s: Session): Session {
    if s.closed then s
    else
      var t := Flushed(Released(s, s.preamble));
      Closed(t.(sequence := t.sequence + 1, frames := t.frames + [Exit(t.sequence + 1)]))
  }

  class TerminalServerSession {
    var historyCarry: Text
    var preamble: Text
    var ready: bool
    var output: Text
    var outputBytes: nat
    var outputTimer: bool
    var closed: bool
    var sentSequence: nat
    var sent: seq<Frame>
    var history: seq<Text>

    function State(): Session
      reads this
    {
      Session(historyCarry, preamble, ready, output, outputBytes, outputTimer, closed, sentSequence, sent, history)
    }

    constructor ()
      ensures State() == FRESH
    {
      historyCarry, preamble, ready, output, outputBytes := [], [], false, [], 0;
      outputTimer, closed, sentSequence, sent, history := false, false, 0, [], [];
    }

    method CaptureHistory(h: Header, data: Text) returns (visible: Text)
      modifies this
      ensures State() == Captured(h, old(State()), data)
      ensures visible == Capture(h, old(historyCarry), data).visible
    {
      var lines, carry;
      visible, lines, carry := Scan(h, historyCarry + data);
      historyCarry := carry;
      history := history + lines;
    }

    method Send(frame: Frame)
      requires frame.sequence == sentSequence + 1
      modifies this`sentSequence, this`sent
      ensures sentSequence == old(sentSequence) + 1 && sent == old(sent) + [frame]
    {
      sentSequence := sentSequence + 1;
      sent := sent + [frame];
    }

    method Close()
      modifies this
      ensures State() == Closed(old(State()))
    {
      closed, outputTimer := true, false;
      preamble, output, outputBytes := [], [], 0;
    }

    method QueueOutput(data: Text)
      modifies this
      ensures State() == Queued(old(State()), data)
    {
      if closed || data == [] { return; }
      output := output + data;
      outputBytes := outputBytes + ByteLength(data);
      if outputBytes > MAX_OUTPUT_BYTES {
        Send(Overflow(sentSequence + 1));
        Close();
        return;
      }
      outputTimer := true;
    }

    method ReleaseOutput(tail: Text)
      modifies this
      ensures State() == Released(old(State()), tail)
    {
      if ready || closed { return; }
      ready := true;
      preamble := [];
      if tail != [] { QueueOutput(tail); }
    }

    method GateOutput(data: Text)
      modifies this
      ensures State() == Gated(old(State()), data)
    {
      if ready {
        QueueOutput(data);
        return;
      }
      preamble := preamble + data;
      var at := IndexOf(preamble, READY_MARKER, 0);
      if at != -1 {
        ReleaseOutput(preamble[at + |READY_MARKER|..]);
      } else if ByteLength(preamble) > READY_MAX_BYTES {
        ReleaseOutput(preamble);
      }
    }

    /** The pty's data handler, which closing disposes of. */
    method OnData(h: Header, data: Text)
      modifies this
      ensures State() == Received(h, old(State()), data)
    {
      if closed { return; }
      var visible := CaptureHistory(h, data);
      if visible != [] { GateOutput(visible); }
    }

    method ReadyTimeout()
      modifies this
      ensures State() == Released(old(State()), old(preamble))
    {
      ReleaseOutput(preamble);
    }

    method FlushOutput()
      modifies this
      ensures State() == Flushed(old(State()))
    {
      outputTimer := false;
      if closed || output == [] { return; }
      var value := output;
      output, outputBytes := [], 0;
      var frames := Cut(value, sentSequence);
      sent, sentSequence := sent + frames, sentSequence + |frames|;
    }

    /** The pty's exit handler. */
    method OnExit()
      modifies this
      ensures State() == Exited(old(State()))
    {
      if closed { return; }
      ReleaseOutput(preamble);
      FlushOutput();
      Send(Exit(sentSequence + 1));
      Close();
    }
  }

  /** The loop that cuts the buffered output into frames. */
  method Cut(value: Text, sequence: nat) returns (frames: seq<Frame>)
    ensures frames == Frames(value, sequence)
  {
    frames := [];
    var offset := 0;
    CutBegin(value, sequence);
    while offset < |value|
      invariant CutTo(value, sequence, offset, frames)
      decreases |value| - offset
    {
      var end := if offset + OUTPUT_CHUNK <= |value| then offset + OUTPUT_CHUNK else |value|;
      var longer := frames + [Output(sequence + |frames| + 1, value[offset..end])];
      CutOne(value, sequence, offset, frames, end, longer);
      frames := longer;
      offset := offset + OUTPUT_CHUNK;
    }
  }

  /** How far the cutting has come: these frames, then those of what is left. */
  ghost predicate CutTo(value: Text, sequence: nat, offset: nat, frames: seq<Frame>) {
    if offset < |value| then frames + Frames(value[offset..], sequence + |frames|) == Frames(value, sequence)
    else frames == Frames(value, sequence)
  }

  lemma CutBegin(value: Text, sequence: nat)
    ensures CutTo(value, sequence, 0, [])
  {
    assert value[0..] == value && [] + Frames(value, sequence) == Frames(value, sequence);
  }

  lemma CutOne(value: Text, sequence: nat, offset: nat, frames: seq<Frame>, end: nat, longer: seq<Frame>)
    requires CutTo(value, sequence, offset, frames) && offset < |value|
    requires end == if offset + OUTPUT_CHUNK <= |value| then offset + OUTPUT_CHUNK else |value|
    requires longer == frames + [Output(sequence + |frames| + 1, value[offset..end])]
    ensures CutTo(value, sequence, offset + OUTPUT_CHUNK, longer)
  {
    var rest, k := value[offset..], sequence + |frames|;
    NextFrame(rest, k);
    assert rest[..end - offset] == value[offset..end] && rest[end - offset..] == value[end..];
    assert frames + ([Output(k + 1, value[offset..end])] + Frames(value[end..], k + 1)) ==
           longer + Frames(value[end..], k + 1);
    if end == |value| { assert value[end..] == []; }
  }

  lemma NextFrame(value: Text, sequence: nat)
    requires value != []
    ensures var n := if OUTPUT_CHUNK <= |value| then OUTPUT_CHUNK else |value|;
            Frames(value, sequence) == [Output(sequence + 1, value[..n])] + Frames(value[n..], sequence + 1)
  {
    if |value| <= OUTPUT_CHUNK { assert value[..|value|] == value && value[|value|..] == []; }
  }

  /** The cursor loop over one text: what it shows, the payloads it takes out, what it holds back. */
  method Scan(h: Header, text: Text) returns (visible: Text, lines: seq<Text>, carry: Text)
    ensures Stripped(visible, lines, carry) == Bounded(Strip(h, text))
  {
    visible, lines, carry := [], [], [];
    var cursor: nat, open := 0, false;
    Begin(h, text);
    while !open
      invariant Reached(h, text, cursor, visible, lines)
      invariant open ==> OccursAt(text, h, cursor) && IndexOf(text, [BEL], cursor + |h|) == -1
      decreases !open, |text| - cursor
    {
      var start := IndexOf(text, h, cursor);
      if start == -1 {
        visible, carry := HoldTail(h, text, cursor, visible, lines);
        return;
      }
      visible, lines, cursor, open := TakeFrame(h, text, cursor, start, visible, lines);
    }
    Unended(h, text, cursor, visible, lines);
    visible, carry := LetThrough(h, text, visible, lines, text[cursor..]);
  }

  /** One header: its frame is taken out, or it is still open and the cursor stays on it. */
  method TakeFrame(h: Header, text: Text, cursor: nat, start: nat, visible: Text, lines: seq<Text>)
    returns (visible': Text, lines': seq<Text>, cursor': nat, open: bool)
    requires Reached(h, text, cursor, visible, lines) && cursor <= start <= |text| && start == IndexOf(text, h, cursor)
    ensures Reached(h, text, cursor', visible', lines')
    ensures if open then OccursAt(text, h, cursor') && IndexOf(text, [BEL], cursor' + |h|) == -1 else cursor < cursor'
  {
    PassGap(h, text, cursor, start, visible, lines);
    visible', lines', cursor' := visible + text[cursor..start], lines, start;
    var end := IndexOf(text, [BEL], start + |h|);
    open := end == -1;
    if !open {
      lines', cursor' := lines + [text[start + |h|..end]], end + 1;
      PassFrame(h, text, start, end, visible', lines, lines', cursor');
    }
  }

  method HoldTail(h: Header, text: Text, cursor: nat, visible: Text, ghost lines: seq<Text>)
    returns (visible': Text, carry: Text)
    requires Reached(h, text, cursor, visible, lines) && IndexOf(text, h, cursor) == -1
    ensures Stripped(visible', lines, carry) == Bounded(Strip(h, text))
  {
    NoMoreFrames(h, text, cursor, visible, lines);
    var hold := HoldFrom(h, text, cursor);
    visible' := visible + text[cursor..hold];
    carry := text[hold..];
  }

  method LetThrough(h: Header, text: Text, visible: Text, ghost lines: seq<Text>, carry: Text)
    returns (visible': Text, carry': Text)
    requires Strip(h, text) == Stripped(visible, lines, carry)
    ensures Stripped(visible', lines, carry') == Bounded(Strip(h, text))
  {
    visible', carry' := visible, carry;
    if |carry| > MAX_CARRY {
      visible', carry' := visible + carry, [];
    }
  }

  /** How far the loop has come: what it shows and takes out, then what the rest of the text gives. */
  ghost predicate Reached(h: Header, text: Text, at: nat, visible: Text, lines: seq<Text>) {
    at <= |text| && Strip(h, text) == Then(Stripped(visible, lines, []), Strip(h, text[at..]))
  }

  lemma Begin(h: Header, text: Text)
    ensures Reached(h, text, 0, [], [])
  {
    var s := Strip(h, text);
    assert text[0..] == text;
    assert [] + s.visible == s.visible && [] + s.lines == s.lines;
  }

  lemma Reach(h: Header, text: Text, at: nat, visible: Text, lines: seq<Text>, next: nat, shown: Text, taken: seq<Text>)
    requires Reached(h, text, at, visible, lines) && next <= |text|
    requires Strip(h, text[at..]) == Then(Stripped(shown, taken, []), Strip(h, text[next..]))
    ensures Reached(h, text, next, visible + shown, lines + taken)
  {
    ThenAssociative(Stripped(visible, lines, []), Stripped(shown, taken, []), Strip(h, text[next..]));
  }

  lemma PassGap(h: Header, text: Text, cursor: nat, start: nat, visible: Text, lines: seq<Text>)
    requires Reached(h, text, cursor, visible, lines) && cursor <= start <= |text| && start == IndexOf(text, h, cursor)
    ensures Reached(h, text, start, visible + text[cursor..start], lines)
  {
    SkipToHeader(h, text, cursor, start);
    Reach(h, text, cursor, visible, lines, start, text[cursor..start], []);
    assert lines + [] == lines;
  }

  lemma FrameToken(h: Header, text: Text, start: nat, end: int)
    requires OccursAt(text, h, start) && end == IndexOf(text, [BEL], start + |h|) && end != -1
    ensures First(h, text[start..]) == Take([], [text[start + |h|..end]], end - start + 1)
  {
    BellAfterHeader(h, text, start);
    assert text[start..][|h|..end - start] == text[start + |h|..end];
  }

  lemma PassFrame(h: Header, text: Text, start: nat, end: int, visible: Text, lines: seq<Text>, taken: seq<Text>,
                  next: nat)
    requires Reached(h, text, start, visible, lines) && OccursAt(text, h, start)
    requires end == IndexOf(text, [BEL], start + |h|) && end != -1
    requires taken == lines + [text[start + |h|..end]] && next == end + 1
    ensures Reached(h, text, next, visible, taken)
  {
    FrameToken(h, text, start, end);
    assert text[start..][end - start + 1..] == text[end + 1..];
    StripTake(h, text[start..], First(h, text[start..]), text[end + 1..]);
    Reach(h, text, start, visible, lines, end + 1, [], [text[start + |h|..end]]);
    assert visible + [] == visible;
  }

  lemma Unended(h: Header, text: Text, start: nat, visible: Text, lines: seq<Text>)
    requires Reached(h, text, start, visible, lines) && OccursAt(text, h, start)
    requires IndexOf(text, [BEL], start + |h|) == -1
    ensures Strip(h, text) == Stripped(visible, lines, text[start..])
  {
    BellAfterHeader(h, text, start);
    StripWait(h, text[start..]);
    assert visible + [] == visible && lines + [] == lines;
  }

  lemma NoMoreFrames(h: Header, text: Text, cursor: nat, visible: Text, lines: seq<Text>)
    requires Reached(h, text, cursor, visible, lines) && IndexOf(text, h, cursor) == -1
    ensures var hold := HoldFrom(h, text, cursor);
            Strip(h, text) == Stripped(visible + text[cursor..hold], lines, text[hold..]) && |text[hold..]| <= MAX_CARRY
  {
    HoldsTheTail(h, text, cursor, HoldFrom(h, text, cursor));
    assert lines + [] == lines;
  }

  lemma BellAfterHeader(h: Header, text: Text, start: nat)
    requires OccursAt(text, h, start)
    ensures h <= text[start..]
    ensures var end := IndexOf(text, [BEL], start + |h|);
            IndexOf(text[start..], [BEL], |h|) == if end == -1 then -1 else end - start
  {
    NotHere(h, text, start);
    var u := text[start..];
    forall i | |h| <= i ensures OccursAt(u, [BEL], i) <==> OccursAt(text, [BEL], start + i) {
      if start + i + 1 <= |text| { assert u[i..i + 1] == text[start + i..start + i + 1]; }
    }
    var end, end' := IndexOf(text, [BEL], start + |h|), IndexOf(u, [BEL], |h|);
    if end != -1 { assert OccursAt(u, [BEL], end - start); }
    if end' != -1 { assert OccursAt(text, [BEL], start + end'); }
  }
}
