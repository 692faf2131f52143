/**
 * src/terminal-server.js:755-792: taking history frames out of a pty stream that arrives in arbitrary
 * pieces. `Strip` reads a whole stream one unit at a time; the server's filter works on pieces.
 */
module HistoryFilter {

  /** UTF-16 code units, as JavaScript strings hold them. */
  type Unit = bv16
  type Text = seq<Unit>

  const ESC: Unit := 0x1b
  const BEL: Unit := 0x07

  /** A frame opens with a header: ESC, then units that are neither ESC nor BEL. Any such header will do. */
  type Header = h: Text |
    && 0 < |h| <= MAX_CARRY && h[0] == ESC
    && (forall i :: 0 < i < |h| ==> h[i] != ESC)
    && (forall i :: 0 <= i < |h| ==> h[i] != BEL)
    witness [ESC]

  // ESC ] 7 7 7 ; g i t p i g e o n - h i s t ;
  const HISTORY_HEADER: Header :=
    [ESC, 93, 55, 55, 55, 59, 103, 105, 116, 112, 105, 103, 101, 111, 110, 45, 104, 105, 115, 116, 59]
  const MAX_CARRY: nat := 8192

  /** What is shown, the payloads of the frames taken out, and the tail held for the next piece. */
  datatype Stripped = Stripped(visible: Text, lines: seq<Text>, carry: Text)

  predicate OccursAt(text: Text, pattern: Text, i: int) {
    0 <= i && i + |pattern| <= |text| && text[i..i + |pattern|] == pattern
  }

  /** String.prototype.indexOf. */
  function IndexOf(text: Text, pattern: Text, from: nat): (at: int)
    ensures at == -1 ==> forall i :: i >= from ==> !OccursAt(text, pattern, i)
    ensures at != -1 ==>
              from <= at && OccursAt(text, pattern, at) && forall i :: from <= i < at ==> !OccursAt(text, pattern, i)
    decreases |text| - from
  {
    if from + |pattern| > |text| then -1
    else if OccursAt(text, pattern, from) then from
    else IndexOf(text, pattern, from + 1)
  }

  /** String.prototype.lastIndexOf of one unit. */
  function LastIndexOf(text: Text, unit: Unit): (at: int)
    ensures at == -1 ==> unit !in text
    ensures at != -1 ==> 0 <= at < |text| && text[at] == unit && unit !in text[at + 1..]
  {
    if text == [] then -1
    else if text[|text| - 1] == unit then |text| - 1
    else
      assert text == text[..|text| - 1] + [text[|text| - 1]];
      LastIndexOf(text[..|text| - 1], unit)
  }

  /** A tail that could still become a header. */
  predicate Held(h: Header, t: Text) {
    |t| < |h| && t <= h
  }

  /** What stands at the front of a text: nothing decidable yet, or something shown or taken out, `n` units long. */
  datatype Token = Wait | Take(shown: Text, lines: seq<Text>, n: nat)

  function First(h: Header, t: Text): (token: Token)
    ensures token.Take? ==> 0 < token.n <= |t|
  {
    if Held(h, t) then Wait
    else if h <= t then
      var end := IndexOf(t, [BEL], |h|);
      if end == -1 then Wait else Take([], [t[|h|..end]], end + 1)
    else Take([t[0]], [], 1)
  }

  function Strip(h: Header, t: Text): Stripped
    decreases |t|
  {
    match First(h, t)
    case Wait => Stripped([], [], t)
    case Take(shown, lines, n) =>
      var rest := Strip(h, t[n..]);
      Stripped(shown + rest.visible, lines + rest.lines, rest.carry)
  }

  // ---------------------------------------------------------------- pieces and the whole stream

  lemma FirstBell(a: Text, b: Text, from: nat)
    requires IndexOf(a, [BEL], from) != -1
    ensures IndexOf(a + b, [BEL], from) == IndexOf(a, [BEL], from)
  {
    var end := IndexOf(a, [BEL], from);
    assert OccursAt(a + b, [BEL], end);
    forall i | from <= i < end ensures !OccursAt(a + b, [BEL], i) {
      assert !OccursAt(a, [BEL], i);
      assert (a + b)[i..i + 1] == a[i..i + 1];
    }
  }

  /** What more text brings cannot undo a decision. */
  lemma FirstIsStable(h: Header, a: Text, b: Text)
    requires First(h, a).Take?
    ensures First(h, a + b) == First(h, a)
  {
    if h <= a {
      var end := IndexOf(a, [BEL], |h|);
      FirstBell(a, b, |h|);
      assert (a + b)[|h|..end] == a[|h|..end];
    } else {
      var i :| 0 <= i < |a| && i < |h| && a[i] != h[i];
      assert (a + b)[i] != h[i];
    }
  }

  /** The output of one stretch followed by that of the next. */
  function Then(s: Stripped, r: Stripped): Stripped {
    Stripped(s.visible + r.visible, s.lines + r.lines, r.carry)
  }

  lemma ThenAssociative(s: Stripped, r: Stripped, q: Stripped)
    ensures Then(s, Then(r, q)) == Then(Then(s, r), q)
  {
    assert s.visible + (r.visible + q.visible) == (s.visible + r.visible) + q.visible;
    assert s.lines + (r.lines + q.lines) == (s.lines + r.lines) + q.lines;
  }

  lemma StripTake(h: Header, t: Text, token: Token, rest: Text)
    requires First(h, t) == token && token.Take? && rest == t[token.n..]
    ensures Strip(h, t) == Then(Stripped(token.shown, token.lines, []), Strip(h, rest))
  {}

  lemma StripWait(h: Header, t: Text)
    requires First(h, t) == Wait
    ensures Strip(h, t) == Stripped([], [], t)
  {}

  lemma WaitingCarriesAll(h: Header, a: Text, b: Text)
    requires First(h, a) == Wait
    ensures Strip(h, a + b) == Then(Strip(h, a), Strip(h, Strip(h, a).carry + b))
  {
    StripWait(h, a);
    var r := Strip(h, a + b);
    assert [] + r.visible == r.visible && [] + r.lines == r.lines;
  }

  lemma FirstOfWhole(h: Header, a: Text, b: Text, token: Token, rest: Text)
    requires First(h, a) == token && token.Take? && rest == a[token.n..]
    ensures First(h, a + b) == token && (a + b)[token.n..] == rest + b
  {
    FirstIsStable(h, a, b);
  }

  lemma TakingFirst(h: Header, a: Text, b: Text, token: Token, rest: Text)
    requires First(h, a) == token && token.Take? && rest == a[token.n..]
    requires Strip(h, rest + b) == Then(Strip(h, rest), Strip(h, Strip(h, rest).carry + b))
    ensures Strip(h, a + b) == Then(Strip(h, a), Strip(h, Strip(h, a).carry + b))
  {
    FirstOfWhole(h, a, b, token, rest);
    StripTake(h, a, token, rest);
    StripTake(h, a + b, token, rest + b);
    ThenAssociative(Stripped(token.shown, token.lines, []), Strip(h, rest), Strip(h, Strip(h, rest).carry + b));
  }

  /** Filtering a stream in two pieces, tail carried over, is filtering it at once. */
  lemma {:induction false} StripInPieces(h: Header, a: Text, b: Text)
    ensures Strip(h, a + b) == Then(Strip(h, a), Strip(h, Strip(h, a).carry + b))
    decreases |a|
  {
    var token := First(h, a);
    if token == Wait {
      WaitingCarriesAll(h, a, b);
    } else {
      var rest := a[token.n..];
      StripInPieces(h, rest, b);
      TakingFirst(h, a, b, token, rest);
    }
  }

  // ---------------------------------------------------------------- the filter, piece by piece

  /** One piece: a frame that has not ended is let through once it has grown too long to be one. */
  function Capture(h: Header, carry: Text, data: Text): Stripped {
    Bounded(Strip(h, carry + data))
  }

  function Bounded(s: Stripped): Stripped {
    if |s.carry| > MAX_CARRY then Stripped(s.visible + s.carry, s.lines, []) else s
  }

  function Feed(h: Header, carry: Text, pieces: seq<Text>): Stripped
    decreases |pieces|
  {
    if pieces == [] then Stripped([], [], carry)
    else
      var s := Capture(h, carry, pieces[0]);
      Then(s, Feed(h, s.carry, pieces[1..]))
  }

  function Concat(pieces: seq<Text>): Text {
    if pieces == [] then [] else pieces[0] + Concat(pieces[1..])
  }

  /** Every ended frame is short enough to be held until its last unit arrives. */
  predicate FramesFit(h: Header, t: Text)
    decreases |t|
  {
    match First(h, t)
    case Wait => true
    case Take(_, lines, n) => (lines != [] ==> n <= MAX_CARRY + 1) && FramesFit(h, t[n..])
  }

  lemma {:induction false} HeldTailsFit(h: Header, a: Text, b: Text)
    requires FramesFit(h, a + b) && |Strip(h, a + b).carry| <= MAX_CARRY
    ensures |Strip(h, a).carry| <= MAX_CARRY
    ensures FramesFit(h, Strip(h, a).carry + b)
    decreases |a|
  {
    if First(h, a).Take? {
      var n := First(h, a).n;
      FirstIsStable(h, a, b);
      assert (a + b)[n..] == a[n..] + b;
      HeldTailsFit(h, a[n..], b);
    } else {
      WaitingFits(h, a, b);
    }
  }

  lemma NotEndedBefore(h: Header, a: Text, b: Text, end: nat)
    requires IndexOf(a, [BEL], |h|) == -1 && OccursAt(a + b, [BEL], end) && |h| <= end
    ensures end >= |a|
  {
    assert !OccursAt(a, [BEL], end);
  }

  /** A text that has to wait is a held tail or the beginning of the frame that follows. */
  lemma WaitingFits(h: Header, a: Text, b: Text)
    requires First(h, a) == Wait && FramesFit(h, a + b) && |Strip(h, a + b).carry| <= MAX_CARRY
    ensures |a| <= MAX_CARRY
  {
    if h <= a {
      assert h <= a + b;
      var end := IndexOf(a + b, [BEL], |h|);
      if end != -1 {
        NotEndedBefore(h, a, b, end);
        assert First(h, a + b).n == end + 1;
      }
    }
  }

  lemma {:induction false} CarryWaits(h: Header, t: Text)
    ensures First(h, Strip(h, t).carry) == Wait
    decreases |t|
  {
    if First(h, t).Take? { CarryWaits(h, t[First(h, t).n..]); }
  }

  /** With frames short enough, the pieces together give exactly what the whole stream gives. */
  lemma {:induction false} FeedIsStrip(h: Header, carry: Text, pieces: seq<Text>)
    requires First(h, carry) == Wait
    requires FramesFit(h, carry + Concat(pieces)) && |Strip(h, carry + Concat(pieces)).carry| <= MAX_CARRY
    ensures Feed(h, carry, pieces) == Strip(h, carry + Concat(pieces))
    decreases |pieces|
  {
    if pieces == [] {
      assert carry + Concat(pieces) == carry;
      StripWait(h, carry);
    } else {
      var a, b := carry + pieces[0], Concat(pieces[1..]);
      assert carry + Concat(pieces) == a + b;
      HeldTailsFit(h, a, b);
      StripInPieces(h, a, b);
      CarryWaits(h, a);
      FeedIsStrip(h, Strip(h, a).carry, pieces[1..]);
    }
  }

  // ---------------------------------------------------------------- a frame that does not fit

  lemma TooLongToHold(h: Header, t: Text)
    requires First(h, t).Take? && First(h, t).lines != [] && First(h, t).n > MAX_CARRY + 1
    ensures var k := First(h, t).n - 1;
            t[k] == BEL && Strip(h, t[..k]) == Stripped([], [], t[..k])
  {
    var k := First(h, t).n - 1;
    assert t[k..k + 1] == [BEL];
    assert h <= t[..k];
    forall i | i >= |h| ensures !OccursAt(t[..k], [BEL], i) {
      assert !OccursAt(t, [BEL], i) || i >= k;
      if i < k { assert t[..k][i..i + 1] == t[i..i + 1]; }
    }
    StripWait(h, t[..k]);
  }

  /** Cutting later than the first token leaves that token as it was. */
  lemma FirstOfPrefix(h: Header, t: Text, k: nat)
    requires First(h, t).Take? && First(h, t).n <= k <= |t| && |h| < k
    ensures First(h, t[..k]) == First(h, t)
  {
    var n := First(h, t).n;
    if h <= t {
      assert h <= t[..k];
      assert t[..k][n - 1..n] == t[n - 1..n];
      assert OccursAt(t[..k], [BEL], n - 1);
      FirstIsStable(h, t[..k], t[k..]);
      assert t == t[..k] + t[k..];
    } else {
      var i :| 0 <= i < |t| && i < |h| && t[i] != h[i];
      assert t[..k][i] != h[i];
    }
  }

  /** Cutting here lets a hidden frame through: what is held is too long, and the rest shows as before. */
  ghost predicate BadCut(h: Header, t: Text, k: nat) {
    && MAX_CARRY < k < |t| && t[k] == BEL && |Strip(h, t[..k]).carry| > MAX_CARRY
    && |Strip(h, t).visible| == |Strip(h, t[..k]).visible| + |Strip(h, t[k + 1..]).visible|
  }

  lemma PrefixOfLater(h: Header, t: Text, token: Token, rest: Text, j: nat, head: Text)
    requires First(h, t) == token && token.Take? && rest == t[token.n..] && MAX_CARRY < j < |rest|
    requires head == t[..token.n + j]
    ensures Strip(h, head) == Then(Stripped(token.shown, token.lines, []), Strip(h, rest[..j]))
  {
    FirstOfPrefix(h, t, token.n + j);
    assert head[token.n..] == rest[..j];
    StripTake(h, head, token, rest[..j]);
  }

  lemma BadCutLater(h: Header, t: Text, token: Token, rest: Text, j: nat, k: nat)
    requires First(h, t) == token && token.Take? && rest == t[token.n..] && BadCut(h, rest, j) && k == token.n + j
    ensures BadCut(h, t, k)
  {
    PrefixOfLater(h, t, token, rest, j, t[..k]);
    StripTake(h, t, token, rest);
    assert t[k + 1..] == rest[j + 1..];
  }

  lemma BadCutHere(h: Header, t: Text)
    requires First(h, t).Take? && First(h, t).lines != [] && First(h, t).n > MAX_CARRY + 1
    ensures BadCut(h, t, First(h, t).n - 1)
  {
    TooLongToHold(h, t);
    StripTake(h, t, First(h, t), t[First(h, t).n..]);
  }

  lemma LaterFrame(h: Header, t: Text, token: Token) returns (rest: Text)
    requires !FramesFit(h, t) && token == First(h, t) && !(token.Take? && token.lines != [] && token.n > MAX_CARRY + 1)
    ensures token.Take? && rest == t[token.n..] && |rest| < |t| && !FramesFit(h, rest)
  {
    rest := t[token.n..];
  }

  lemma {:induction false} LongFrame(h: Header, t: Text) returns (k: nat)
    requires !FramesFit(h, t)
    ensures BadCut(h, t, k)
    decreases |t|
  {
    var token := First(h, t);
    if token.Take? && token.lines != [] && token.n > MAX_CARRY + 1 {
      k := token.n - 1;
      BadCutHere(h, t);
    } else {
      var rest := LaterFrame(h, t, token);
      var j := LongFrame(h, rest);
      k := token.n + j;
      BadCutLater(h, t, token, rest, j, k);
    }
  }

  lemma BellIsShown(h: Header, t: Text)
    requires t != [] && t[0] == BEL
    ensures |Strip(h, t).visible| == 1 + |Strip(h, t[1..]).visible|
  {
    assert First(h, t) == Take([BEL], [], 1);
    StripTake(h, t, First(h, t), t[1..]);
  }

  lemma TwoPieces(h: Header, a: Text, b: Text)
    ensures Concat([a, b]) == a + b
    ensures Capture(h, [], a).carry == [] ==>
      |Feed(h, [], [a, b]).visible| == |Capture(h, [], a).visible| + |Capture(h, [], b).visible|
  {
    var pieces := [a, b];
    assert pieces[1..] == [b];
    assert Concat(pieces[1..]) == b;
    if Capture(h, [], a).carry == [] {
      assert pieces[1..][1..] == [];
      assert Feed(h, [], pieces[1..]).visible == Capture(h, [], b).visible;
    }
  }

  lemma CutShowsMore(h: Header, t: Text, k: nat)
    requires BadCut(h, t, k)
    ensures Concat([t[..k], t[k..]]) == t && Feed(h, [], [t[..k], t[k..]]) != Strip(h, t)
  {
    TwoPieces(h, t[..k], t[k..]);
    assert t[..k] + t[k..] == t && [] + t[..k] == t[..k] && [] + t[k..] == t[k..];
    BellIsShown(h, t[k..]);
    assert t[k..][1..] == t[k + 1..];
  }

  lemma FittingFramesAreIndependent(h: Header, t: Text, pieces: seq<Text>)
    requires FramesFit(h, t) && |Strip(h, t).carry| <= MAX_CARRY && Concat(pieces) == t
    ensures Feed(h, [], pieces) == Strip(h, t)
  {
    assert [] + Concat(pieces) == t;
    FeedIsStrip(h, [], pieces);
  }

  lemma LongFrameDepends(h: Header, t: Text) returns (pieces: seq<Text>)
    requires !FramesFit(h, t)
    ensures Concat(pieces) == t && Feed(h, [], pieces) != Strip(h, t)
  {
    var k := LongFrame(h, t);
    CutShowsMore(h, t, k);
    pieces := [t[..k], t[k..]];
  }

  /**
   * The filter does not depend on how a stream is cut exactly when every ended frame fits in the carry
   * with its last unit still to come. (A frame never ended within the stream has to fit as well.)
   */
  lemma ChunkingIndependence(h: Header, t: Text)
    requires |Strip(h, t).carry| <= MAX_CARRY
    ensures (forall pieces :: Concat(pieces) == t ==> Feed(h, [], pieces) == Strip(h, t)) <==> FramesFit(h, t)
  {
    if FramesFit(h, t) {
      forall pieces | Concat(pieces) == t ensures Feed(h, [], pieces) == Strip(h, t) {
        FittingFramesAreIndependent(h, t, pieces);
      }
    } else {
      var pieces := LongFrameDepends(h, t);
    }
  }
}
