/**
 * src/realtime-server.js:308-388, 718-751: a live document and its file. Edits made to the file outside are
 * patched into the document; the watcher's own versions coming back are recognised as echoes.
 */
module Realtime {
  import opened Basics

  type Text = Bytes

  const ECHO_WINDOW_MS: nat := 15_000
  const HISTORY_LENGTH: nat := 30

  // ---------------------------------------------------------------- the patch

  function Shorter(base: Text, content: Text): nat {
    if |base| < |content| then |base| else |content|
  }

  predicate SamePrefix(base: Text, content: Text, n: int) {
    0 <= n <= Shorter(base, content) && forall i :: 0 <= i < n ==> base[i] == content[i]
  }

  function FromEnd(t: Text, i: nat): int
    requires i < |t|
  {
    t[|t| - 1 - i]
  }

  predicate SameSuffix(base: Text, content: Text, n: int) {
    0 <= n <= Shorter(base, content) && forall i :: 0 <= i < n ==> FromEnd(base, i) == FromEnd(content, i)
  }

  /** How much of the base the change leaves alone in front and behind: in front first, then behind without overlap. */
  datatype Span = Span(prefix: nat, suffix: nat)

  ghost predicate IsSpan(base: Text, content: Text, s: Span) {
    && s.prefix + s.suffix <= Shorter(base, content)
    && SamePrefix(base, content, s.prefix) && (forall n :: SamePrefix(base, content, n) ==> n <= s.prefix)
    && SameSuffix(base, content, s.suffix)
    && (forall n :: SameSuffix(base, content, n) && s.prefix + n <= Shorter(base, content) ==> n <= s.suffix)
  }

  function PrefixFrom(base: Text, content: Text, n: nat): (p: nat)
    requires SamePrefix(base, content, n)
    ensures SamePrefix(base, content, p) && (p < Shorter(base, content) ==> base[p] != content[p])
    decreases Shorter(base, content) - n
  {
    if n < Shorter(base, content) && base[n] == content[n] then PrefixFrom(base, content, n + 1) else n
  }

  function SuffixFrom(base: Text, content: Text, limit: nat, n: nat): (p: nat)
    requires SameSuffix(base, content, n) && n <= limit <= Shorter(base, content)
    ensures SameSuffix(base, content, p) && p <= limit && (p < limit ==> FromEnd(base, p) != FromEnd(content, p))
    decreases limit - n
  {
    if n < limit && FromEnd(base, n) == FromEnd(content, n) then SuffixFrom(base, content, limit, n + 1) else n
  }

  /** Where two loops stop that go on while the texts agree is the span. */
  lemma LoopsFindSpan(base: Text, content: Text, s: Span)
    requires s.prefix + s.suffix <= Shorter(base, content)
    requires SamePrefix(base, content, s.prefix) && SameSuffix(base, content, s.suffix)
    requires s.prefix < Shorter(base, content) ==> base[s.prefix] != content[s.prefix]
    requires s.prefix + s.suffix < Shorter(base, content) ==> FromEnd(base, s.suffix) != FromEnd(content, s.suffix)
    ensures IsSpan(base, content, s)
  {
    forall n | SamePrefix(base, content, n) ensures n <= s.prefix {}
    forall n | SameSuffix(base, content, n) && s.prefix + n <= Shorter(base, content) ensures n <= s.suffix {}
  }

  function SpanOf(base: Text, content: Text): (s: Span)
    ensures IsSpan(base, content, s)
  {
    var prefix := PrefixFrom(base, content, 0);
    var s := Span(prefix, SuffixFrom(base, content, Shorter(base, content) - prefix, 0));
    LoopsFindSpan(base, content, s);
    s
  }

  /** What the document becomes, given the span. */
  function Spliced(text: Text, base: Text, content: Text, s: Span): Text
    requires s.prefix + s.suffix <= Shorter(base, content)
  {
    var middle := content[s.prefix..|content| - s.suffix];
    var changed := |base| - s.prefix - s.suffix;
    if s.prefix > |text| then text + middle
    else
      var deleted := if changed <= |text| - s.prefix then changed else |text| - s.prefix;
      text[..s.prefix] + middle + text[s.prefix + deleted..]
  }

  lemma SpanIsUnique(base: Text, content: Text, s: Span, t: Span)
    requires IsSpan(base, content, s) && IsSpan(base, content, t)
    ensures s == t
  {}

  function Patched(text: Text, base: Text, content: Text): Text {
    Spliced(text, base, content, SpanOf(base, content))
  }

  /** The two loops that find the changed span. */
  method FindSpan(base: Text, content: Text) returns (s: Span)
    ensures s == SpanOf(base, content)
  {
    var shortest := if |base| < |content| then |base| else |content|;
    var prefix := 0;
    while prefix < shortest && base[prefix] == content[prefix]
      invariant SamePrefix(base, content, prefix)
    {
      prefix := prefix + 1;
    }
    var suffix := 0;
    while suffix < shortest - prefix && FromEnd(base, suffix) == FromEnd(content, suffix)
      invariant prefix + suffix <= shortest && SameSuffix(base, content, suffix)
    {
      suffix := suffix + 1;
    }
    s := Span(prefix, suffix);
    LoopsFindSpan(base, content, s);
    SpanIsUnique(base, content, s, SpanOf(base, content));
  }

  method Patch(text: Text, base: Text, content: Text) returns (patched: Text)
    ensures patched == Patched(text, base, content)
  {
    var s := FindSpan(base, content);
    var deleteLength := |base| - s.prefix - s.suffix;
    if |text| - s.prefix < deleteLength { deleteLength := |text| - s.prefix; }
    if deleteLength < 0 { deleteLength := 0; }
    var middle := content[s.prefix..|content| - s.suffix];
    if s.prefix > |text| {
      patched := text + middle;
    } else {
      patched := text;
      if deleteLength > 0 { patched := patched[..s.prefix] + patched[s.prefix + deleteLength..]; }
      patched := patched[..s.prefix] + middle + patched[s.prefix..];
    }
  }

  /** How much of the document the patch deletes. */
  function Deleted(text: Text, base: Text, s: Span): (n: nat)
    requires s.prefix <= |text| && s.prefix + s.suffix <= |base|
    ensures s.prefix + n <= |text|
  {
    var changed := |base| - s.prefix - s.suffix;
    if changed <= |text| - s.prefix then changed else |text| - s.prefix
  }

  /** What the file has in the changed span is not what the document has in the place it goes to. */
  predicate Alters(text: Text, base: Text, content: Text) {
    var s := SpanOf(base, content);
    var middle := content[s.prefix..|content| - s.suffix];
    if s.prefix > |text| then middle != [] else middle != text[s.prefix..s.prefix + Deleted(text, base, s)]
  }

  /** A patch changes the document exactly when that is so. */
  lemma PatchAltersExactlyWhen(text: Text, base: Text, content: Text)
    ensures Patched(text, base, content) != text <==> Alters(text, base, content)
  {
    var s := SpanOf(base, content);
    var middle := content[s.prefix..|content| - s.suffix];
    if s.prefix > |text| {
      assert middle == [] ==> text + middle == text;
    } else {
      SplicedAlters(text, s.prefix, Deleted(text, base, s), middle);
    }
  }

  lemma SplicedAlters(text: Text, from: nat, n: nat, middle: Text)
    requires from + n <= |text|
    ensures text[..from] + middle + text[from + n..] == text <==> middle == text[from..from + n]
  {
    var after := text[..from] + middle + text[from + n..];
    if middle == text[from..from + n] {
      assert after == text;
    } else if |middle| == n {
      assert after[from..from + n] == middle;
    }
  }

  /** In front of the changed span, and behind it, the document keeps what it has. */
  lemma PatchStaysInRange(text: Text, base: Text, content: Text)
    ensures var s, patched := SpanOf(base, content), Patched(text, base, content);
            var changed, added := |base| - s.prefix - s.suffix, |content| - s.prefix - s.suffix;
            && |patched| >= |text| + added - changed
            && (forall i :: 0 <= i < s.prefix && i < |text| ==> patched[i] == text[i])
            && (forall i :: 0 <= i < |text| - s.prefix - changed ==> FromEnd(patched, i) == FromEnd(text, i))
  {}

  lemma SpanAgrees(base: Text, content: Text, s: Span)
    requires IsSpan(base, content, s)
    ensures base[..s.prefix] == content[..s.prefix] && base[|base| - s.suffix..] == content[|content| - s.suffix..]
  {
    var b, c := base[|base| - s.suffix..], content[|content| - s.suffix..];
    forall i | 0 <= i < s.suffix ensures b[i] == c[i] {
      assert FromEnd(base, s.suffix - 1 - i) == FromEnd(content, s.suffix - 1 - i);
    }
  }

  /** A document that is the base becomes the file; so does one whose base is unknown, patched against itself. */
  lemma PatchOfBase(base: Text, content: Text)
    ensures Patched(base, base, content) == content
  {
    var s := SpanOf(base, content);
    SpanAgrees(base, content, s);
    assert content == content[..s.prefix] + content[s.prefix..|content| - s.suffix] + content[|content| - s.suffix..];
  }

  /**
   * A document that reaches past the changed span takes the change and keeps its own tail, exactly when it
   * agrees with the base before the span. What was typed inside the span is replaced.
   */
  lemma PatchKeepsTail(text: Text, base: Text, content: Text)
    requires |text| >= |base| - SpanOf(base, content).suffix
    ensures var s := SpanOf(base, content);
            Patched(text, base, content) == content[..|content| - s.suffix] + text[|base| - s.suffix..]
            <==> text[..s.prefix] == base[..s.prefix]
  {
    var s := SpanOf(base, content);
    var middle, tail := content[s.prefix..|content| - s.suffix], text[|base| - s.suffix..];
    SpanAgrees(base, content, s);
    HeadOfContent(base, content, s, middle);
    PatchPastSpan(text, base, content, s, middle, tail);
    SameRest(base[..s.prefix], text[..s.prefix], middle, tail);
  }

  lemma HeadOfContent(base: Text, content: Text, s: Span, middle: Text)
    requires IsSpan(base, content, s) && base[..s.prefix] == content[..s.prefix]
    requires middle == content[s.prefix..|content| - s.suffix]
    ensures content[..|content| - s.suffix] == base[..s.prefix] + middle
  {}

  lemma PatchPastSpan(text: Text, base: Text, content: Text, s: Span, middle: Text, tail: Text)
    requires s == SpanOf(base, content) && |text| >= |base| - s.suffix
    requires middle == content[s.prefix..|content| - s.suffix] && tail == text[|base| - s.suffix..]
    ensures Patched(text, base, content) == text[..s.prefix] + middle + tail
  {}

  lemma SameRest(a: Text, b: Text, middle: Text, tail: Text)
    requires |a| == |b|
    ensures a + middle + tail == b + middle + tail <==> a == b
  {
    if a + middle + tail == b + middle + tail {
      assert a == (a + middle + tail)[..|a|] && b == (b + middle + tail)[..|b|];
    }
  }
}
