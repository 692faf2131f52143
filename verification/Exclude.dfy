/**
 * src/workspace.js:246-271: the section of .git/info/exclude this tool manages is found, cut out and printed
 * again at the end; everything else in the file belongs to the user.
 */
module Exclude {
  import opened Basics
  import opened Strings

  type Lines = seq<string>

  const BEGIN_EXCLUDE := "# BEGIN GitPigeon managed files"
  const END_EXCLUDE := "# END GitPigeon managed files"

  /** Every CR LF pair becomes LF. */
  function Normalize(s: string): string {
    if s == "" then ""
    else if |s| > 1 && s[0] == '\r' && s[1] == '\n' then "\n" + Normalize(s[2..])
    else [s[0]] + Normalize(s[1..])
  }

  function LinesOf(text: string): Lines {
    Split(Normalize(text), '\n')
  }

  function IndexFrom(lines: Lines, line: string, from: nat): (at: int)
    requires from <= |lines|
    ensures at == -1 || from <= at < |lines|
    ensures forall i :: from <= i < (if at == -1 then |lines| else at) ==> lines[i] != line
    ensures at != -1 ==> lines[at] == line
    decreases |lines| - from
  {
    if from == |lines| then -1 else if lines[from] == line then from else IndexFrom(lines, line, from + 1)
  }

  /** Array.prototype.indexOf. */
  function IndexOf(lines: Lines, line: string): (at: int)
    ensures -1 <= at < |lines| && (at == -1 <==> line !in lines)
    ensures at != -1 ==> lines[at] == line && forall i :: 0 <= i < at ==> lines[i] != line
  {
    IndexFrom(lines, line, 0)
  }

  predicate Malformed(lines: Lines) {
    var begin, end := IndexOf(lines, BEGIN_EXCLUDE), IndexOf(lines, END_EXCLUDE);
    (begin == -1) != (end == -1) || (begin != -1 && end < begin)
  }

  function CutOut(lines: Lines): Lines
    requires !Malformed(lines)
  {
    var begin, end := IndexOf(lines, BEGIN_EXCLUDE), IndexOf(lines, END_EXCLUDE);
    if begin == -1 then lines else lines[..begin] + lines[end + 1..]
  }

  function TrimEnd(lines: Lines): (r: Lines)
    ensures r <= lines && (r == [] || r[|r| - 1] != "") && forall i :: |r| <= i < |lines| ==> lines[i] == ""
  {
    if lines != [] && lines[|lines| - 1] == "" then TrimEnd(lines[..|lines| - 1]) else lines
  }

  /** The user's lines, but for blank lines at the end. */
  function UserLines(text: string): Option<Lines> {
    if Malformed(LinesOf(text)) then None else Some(TrimEnd(CutOut(LinesOf(text))))
  }

  function Entries(tracked: seq<Path>): Lines {
    seq(|tracked|, i requires 0 <= i < |tracked| => "/" + tracked[i])
  }

  function Managed(tracked: seq<Path>): Lines {
    if tracked == [] then [] else ["", BEGIN_EXCLUDE] + Entries(tracked) + [END_EXCLUDE]
  }

  function Printed(lines: Lines): string {
    var next := Join(lines, '\n');
    if next == "" then "" else next + "\n"
  }

  /** The file rewritten for these paths; None is the error for a malformed section. */
  function Rewritten(text: string, tracked: seq<Path>): Option<string> {
    match UserLines(text)
    case None => None
    case Some(without) => Some(Printed(without + Managed(tracked)))
  }

  /** The paths the section lists. */
  function Listed(text: string): Option<seq<Path>> {
    var lines := LinesOf(text);
    if Malformed(lines) then None
    else
      var begin, end := IndexOf(lines, BEGIN_EXCLUDE), IndexOf(lines, END_EXCLUDE);
      if begin == -1 then Some([])
      else
        var section := lines[begin + 1..end];
        Some(seq(|section|, i requires 0 <= i < |section| => if section[i] == "" then "" else section[i][1..]))
  }

  // ---------------------------------------------------------------- printing and reading back

  predicate OneLine(line: string) {
    '\n' !in line
  }

  function StripCR(line: string): string {
    if line != "" && line[|line| - 1] == '\r' then line[..|line| - 1] else line
  }

  function StripAll(lines: Lines): Lines {
    seq(|lines|, i requires 0 <= i < |lines| => StripCR(lines[i]))
  }

  lemma {:induction false} JoinThenNewline(lines: Lines)
    requires lines != []
    ensures Join(lines, '\n') + "\n" == Terminated(lines)
  {
    if |lines| == 1 {
      assert lines[1..] == [];
      assert lines[0] + "\n" + "" == lines[0] + "\n";
    } else {
      JoinThenNewline(lines[1..]);
      assert lines[0] + "\n" + Join(lines[1..], '\n') + "\n" == lines[0] + "\n" + (Join(lines[1..], '\n') + "\n");
    }
  }

  lemma SplitCons(c: char, rest: string)
    ensures Split([c] + rest, '\n') ==
              if c == '\n' then [""] + Split(rest, '\n')
              else [[c] + Split(rest, '\n')[0]] + Split(rest, '\n')[1..]
  {
    assert ([c] + rest)[1..] == rest;
  }

  /** A line printed and read back loses at most a carriage return at its end. */
  lemma {:induction false} LineReadBack(line: string, rest: string)
    requires OneLine(line)
    ensures LinesOf(line + "\n" + rest) == [StripCR(line)] + LinesOf(rest)
    decreases |line|
  {
    var text := line + "\n" + rest;
    if line == "" {
      assert text[1..] == rest && text == "\n" + rest;
      SplitCons('\n', Normalize(rest));
    } else if line == "\r" {
      assert text[2..] == rest;
      SplitCons('\n', Normalize(rest));
    } else {
      var c, tail := line[0], line[1..];
      assert text[1..] == tail + "\n" + rest;
      assert line == [c] + tail;
      LineReadBack(tail, rest);
      SplitCons(c, Normalize(tail + "\n" + rest));
      StripCons(c, tail);
    }
  }

  lemma StripCons(c: char, tail: string)
    requires [c] + tail != "\r"
    ensures StripCR([c] + tail) == [c] + StripCR(tail)
  {
    if tail != "" { assert ([c] + tail)[..|tail|] == [c] + tail[..|tail| - 1]; }
  }

  lemma {:induction false} ReadBack(lines: Lines)
    requires forall i :: 0 <= i < |lines| ==> OneLine(lines[i])
    ensures LinesOf(Terminated(lines)) == StripAll(lines) + [""]
  {
    if lines == [] {
      assert StripAll(lines) == [];
    } else {
      ReadBack(lines[1..]);
      LineReadBack(lines[0], Terminated(lines[1..]));
      assert StripAll(lines) == [StripCR(lines[0])] + StripAll(lines[1..]);
    }
  }

  /** What reading back a printed list of lines gives. */
  lemma PrintedReadBack(lines: Lines)
    requires forall i :: 0 <= i < |lines| ==> OneLine(lines[i])
    requires lines == [] || lines[|lines| - 1] != ""
    ensures LinesOf(Printed(lines)) == StripAll(lines) + [""]
  {
    ReadBack(lines);
    if lines != [] {
      JoinThenNewline(lines);
      JoinNotEmpty(lines);
    }
  }

  lemma {:induction false} JoinNotEmpty(lines: Lines)
    requires lines != [] && lines[|lines| - 1] != ""
    ensures Join(lines, '\n') != ""
  {
    if |lines| > 1 { JoinNotEmpty(lines[1..]); }
  }

  lemma {:induction false} SplitOneLine(s: string)
    ensures forall i :: 0 <= i < |Split(s, '\n')| ==> OneLine(Split(s, '\n')[i])
  {
    if s != "" { SplitOneLine(s[1..]); }
  }

  // ---------------------------------------------------------------- the laws

  /** No second section, and no line that ends in a carriage return of its own. */
  predicate Clean(lines: Lines) {
    BEGIN_EXCLUDE !in lines && END_EXCLUDE !in lines && forall i :: 0 <= i < |lines| ==> StripCR(lines[i]) == lines[i]
  }

  /** The paths that are tracked hold no control characters. */
  predicate Trackable(tracked: seq<Path>) {
    forall i :: 0 <= i < |tracked| ==> '\n' !in tracked[i] && '\r' !in tracked[i]
  }

  lemma UserLinesAreLines(text: string)
    requires UserLines(text).Some?
    ensures var w := UserLines(text).value;
            (forall i :: 0 <= i < |w| ==> OneLine(w[i])) && (w == [] || w[|w| - 1] != "")
  {
    SplitOneLine(Normalize(text));
  }

  lemma ManagedLines(tracked: seq<Path>)
    requires Trackable(tracked)
    ensures var m := Managed(tracked);
            (forall i :: 0 <= i < |m| ==> OneLine(m[i])) && StripAll(m) == m && (m == [] || m[|m| - 1] != "")
  {
    var m := Managed(tracked);
    forall i | 0 <= i < |m| ensures OneLine(m[i]) && StripCR(m[i]) == m[i] {
      if 2 <= i < |m| - 1 { assert m[i] == "/" + tracked[i - 2]; }
    }
  }

  lemma EntriesAreNoMarks(tracked: seq<Path>)
    ensures BEGIN_EXCLUDE !in Entries(tracked) && END_EXCLUDE !in Entries(tracked)
  {
    forall line | line in Entries(tracked) ensures line[0] == '/' {}
  }

  lemma StripAllOf(w: Lines, m: Lines)
    ensures StripAll(w + m) == StripAll(w) + StripAll(m)
    ensures (forall i :: 0 <= i < |w| ==> StripCR(w[i]) == w[i]) ==> StripAll(w) == w
  {}

  /** The lines of a rewritten file: the user's, then the section, then the empty rest. */
  lemma RewrittenLines(text: string, tracked: seq<Path>)
    requires UserLines(text).Some? && Trackable(tracked)
    ensures LinesOf(Rewritten(text, tracked).value) == StripAll(UserLines(text).value) + Managed(tracked) + [""]
  {
    var w, m := UserLines(text).value, Managed(tracked);
    UserLinesAreLines(text);
    ManagedLines(tracked);
    StripAllOf(w, m);
    PrintedReadBack(w + m);
  }

  lemma MarkPlace(before: Lines, line: string, after: Lines, lines: Lines)
    requires lines == before + [line] + after && line !in before
    ensures IndexOf(lines, line) == |before|
  {
    assert lines[..|before|] == before && lines[|before|] == line;
  }

  lemma NotIn(a: Lines, b: Lines, line: string)
    ensures line in a + b <==> line in a || line in b
  {}

  lemma SectionParts(w: Lines, entries: Lines, lines: Lines)
    requires lines == w + (["", BEGIN_EXCLUDE] + entries + [END_EXCLUDE]) + [""]
    ensures lines == (w + [""]) + [BEGIN_EXCLUDE] + (entries + [END_EXCLUDE, ""])
    ensures lines == (w + ["", BEGIN_EXCLUDE] + entries) + [END_EXCLUDE] + [""]
  {}

  lemma SectionPlace(w: Lines, tracked: seq<Path>, lines: Lines)
    requires BEGIN_EXCLUDE !in w && END_EXCLUDE !in w && tracked != [] && lines == w + Managed(tracked) + [""]
    ensures IndexOf(lines, BEGIN_EXCLUDE) == |w| + 1 && IndexOf(lines, END_EXCLUDE) == |w| + 2 + |tracked|
  {
    var entries := Entries(tracked);
    EntriesAreNoMarks(tracked);
    SectionParts(w, entries, lines);
    NotIn(w, [""], BEGIN_EXCLUDE);
    MarkPlace(w + [""], BEGIN_EXCLUDE, entries + [END_EXCLUDE, ""], lines);
    NotIn(w, ["", BEGIN_EXCLUDE], END_EXCLUDE);
    NotIn(w + ["", BEGIN_EXCLUDE], entries, END_EXCLUDE);
    MarkPlace(w + ["", BEGIN_EXCLUDE] + entries, END_EXCLUDE, [""], lines);
  }

  lemma SectionShape(w: Lines, tracked: seq<Path>, lines: Lines)
    requires tracked != [] && lines == w + Managed(tracked) + [""]
    ensures lines[..|w| + 1] + lines[|w| + 3 + |tracked|..] == w + seq(2, _ => "")
    ensures lines[|w| + 2..|w| + 2 + |tracked|] == Entries(tracked)
  {
    SectionParts(w, Entries(tracked), lines);
    AroundSection(w + [""], BEGIN_EXCLUDE, Entries(tracked), END_EXCLUDE, lines);
    assert w + [""] + [""] == w + seq(2, _ => "");
  }

  lemma AroundSection(front: Lines, open: string, entries: Lines, close: string, lines: Lines)
    requires lines == front + [open] + (entries + [close, ""])
    ensures |lines| == |front| + |entries| + 3
    ensures lines[..|front|] == front && lines[|front| + 2 + |entries|..] == [""]
    ensures lines[|front| + 1..|front| + 1 + |entries|] == entries
  {}

  lemma NothingListed(w: Lines, lines: Lines)
    requires Clean(w) && (w == [] || w[|w| - 1] != "") && lines == w + [""]
    ensures !Malformed(lines) && IndexOf(lines, BEGIN_EXCLUDE) == -1 && TrimEnd(CutOut(lines)) == w
  {
    NotIn(w, [""], BEGIN_EXCLUDE);
    NotIn(w, [""], END_EXCLUDE);
    Trimmed(w, 1, lines);
  }

  lemma SectionCutOut(w: Lines, tracked: seq<Path>, lines: Lines, begin: int, end: int)
    requires BEGIN_EXCLUDE !in w && END_EXCLUDE !in w && (w == [] || w[|w| - 1] != "")
    requires tracked != [] && lines == w + Managed(tracked) + [""]
    requires begin == IndexOf(lines, BEGIN_EXCLUDE) && end == IndexOf(lines, END_EXCLUDE)
    ensures 0 <= begin < end < |lines| && TrimEnd(CutOut(lines)) == w && lines[begin + 1..end] == Entries(tracked)
  {
    SectionPlace(w, tracked, lines);
    SectionShape(w, tracked, lines);
    Trimmed(w, 2, lines[..begin] + lines[end + 1..]);
    CutBetween(lines, begin, end, lines[..begin] + lines[end + 1..]);
  }

  lemma CutBetween(lines: Lines, begin: nat, end: nat, rest: Lines)
    requires begin == IndexOf(lines, BEGIN_EXCLUDE) && end == IndexOf(lines, END_EXCLUDE) && begin < end < |lines|
    requires rest == lines[..begin] + lines[end + 1..]
    ensures !Malformed(lines) && CutOut(lines) == rest
  {}

  lemma ListedIs(text: string, tracked: seq<Path>, begin: int, end: int)
    requires begin == IndexOf(LinesOf(text), BEGIN_EXCLUDE) && end == IndexOf(LinesOf(text), END_EXCLUDE)
    requires 0 <= begin < end && LinesOf(text)[begin + 1..end] == Entries(tracked)
    ensures Listed(text) == Some(tracked)
  {
    forall i | 0 <= i < |tracked| ensures Entries(tracked)[i][1..] == tracked[i] {}
    assert Listed(text).value == tracked;
  }

  /** Rewriting a file keeps the user's lines, and what it lists is what was to be listed. */
  lemma RewriteKeepsAndLists(text: string, tracked: seq<Path>)
    requires UserLines(text).Some? && Clean(UserLines(text).value) && Trackable(tracked)
    ensures var after := Rewritten(text, tracked).value;
            UserLines(after) == UserLines(text) && Listed(after) == Some(tracked)
  {
    var w, after := UserLines(text).value, Rewritten(text, tracked).value;
    UserLinesAreLines(text);
    RewrittenLines(text, tracked);
    StripAllOf(w, []);
    if tracked == [] {
      assert w + [] == w;
      ReadNothing(after, w, LinesOf(after));
    } else {
      ReadSection(after, w, tracked, LinesOf(after));
    }
  }

  lemma ReadNothing(after: string, w: Lines, lines: Lines)
    requires lines == LinesOf(after) == w + [""] && Clean(w) && (w == [] || w[|w| - 1] != "")
    ensures UserLines(after) == Some(w) && Listed(after) == Some([])
  {
    NothingListed(w, lines);
  }

  lemma ReadSection(after: string, w: Lines, tracked: seq<Path>, lines: Lines)
    requires lines == LinesOf(after) == w + Managed(tracked) + [""] && tracked != []
    requires Clean(w) && (w == [] || w[|w| - 1] != "")
    ensures UserLines(after) == Some(w) && Listed(after) == Some(tracked)
  {
    var begin, end := IndexOf(lines, BEGIN_EXCLUDE), IndexOf(lines, END_EXCLUDE);
    SectionCutOut(w, tracked, lines, begin, end);
    ListedIs(after, tracked, begin, end);
  }

  lemma Trimmed(w: Lines, n: nat, lines: Lines)
    requires lines == w + seq(n, _ => "") && (w == [] || w[|w| - 1] != "")
    ensures TrimEnd(lines) == w
  {
    assert w != [] ==> lines[|w| - 1] != "";
    assert forall i :: |w| <= i < |lines| ==> lines[i] == "";
  }

  /** Rewriting twice is rewriting once with the later list. */
  lemma RewriteTwice(text: string, first: seq<Path>, second: seq<Path>)
    requires UserLines(text).Some? && Clean(UserLines(text).value) && Trackable(first)
    ensures Rewritten(Rewritten(text, first).value, second) == Rewritten(text, second)
  {
    RewriteKeepsAndLists(text, first);
  }

  /** Reading the section and writing it back leaves a file this tool wrote as it is, so nothing is written. */
  lemma RewriteWhatIsListed(text: string, tracked: seq<Path>)
    requires UserLines(text).Some? && Clean(UserLines(text).value) && Trackable(tracked)
    ensures var after := Rewritten(text, tracked).value;
            Listed(after).Some? && Rewritten(after, Listed(after).value) == Some(after)
  {
    RewriteKeepsAndLists(text, tracked);
    RewriteTwice(text, tracked, tracked);
  }

  // ---------------------------------------------------------------- exactly when

  lemma {:induction false} TrimShorter(lines: Lines)
    ensures |TrimEnd(lines)| <= |lines|
    ensures |lines| > 0 && lines[|lines| - 1] == "" ==> |TrimEnd(lines)| <= |lines| - 1
  {}

  /** Printed alone and read back, the user's lines come back as they were only if they are clean. */
  lemma OnlyCleanLinesReturn(w: Lines, lines: Lines)
    requires lines == StripAll(w) + [""] && !Malformed(lines) && TrimEnd(CutOut(lines)) == w
    ensures Clean(w)
  {
    TrimShorter(CutOut(lines));
    if IndexOf(lines, BEGIN_EXCLUDE) == -1 {
      assert lines[|w|] == "";
      assert forall i :: 0 <= i < |w| ==> w[i] == lines[i] == StripCR(w[i]);
    }
  }

  /**
   * Whatever is listed, rewriting keeps the user's lines and leaves a file that can be rewritten, exactly when
   * those lines hold no mark of a second section and none ends in a carriage return of its own.
   */
  lemma UserLinesSurviveExactlyWhenClean(text: string)
    requires UserLines(text).Some?
    ensures (forall tracked :: Trackable(tracked) ==> UserLines(Rewritten(text, tracked).value) == UserLines(text))
            <==> Clean(UserLines(text).value)
  {
    if Clean(UserLines(text).value) {
      forall tracked | Trackable(tracked) ensures UserLines(Rewritten(text, tracked).value) == UserLines(text) {
        RewriteKeepsAndLists(text, tracked);
      }
    } else {
      NothingListedShows(text);
      assert Trackable([]);
    }
  }

  /** Listing nothing already shows that lines are not clean. */
  lemma NothingListedShows(text: string)
    requires UserLines(text).Some? && !Clean(UserLines(text).value)
    ensures UserLines(Rewritten(text, []).value) != UserLines(text)
  {
    var w, lines := UserLines(text).value, LinesOf(Rewritten(text, []).value);
    RewrittenLines(text, []);
    assert lines == StripAll(w) + [""];
    if UserLines(Rewritten(text, []).value) == UserLines(text) { OnlyCleanLinesReturn(w, lines); }
  }

  // ---------------------------------------------------------------- the file

  lemma RewrittenIs(text: string, tracked: seq<Path>, without: Lines, managed: Lines, contents: string)
    requires UserLines(text) == Some(without) && managed == Managed(tracked) && contents == Printed(without + managed)
    ensures Rewritten(text, tracked) == Some(contents)
  {}

  class WorkspaceExclude {
    var file: Option<string>

    function Current(): string
      reads this
    {
      if file.Some? then file.value else ""
    }

    constructor (file: Option<string>)
      ensures this.file == file
    {
      this.file := file;
    }

    /** `ok` is false for a malformed section; `wrote` is whether the file was replaced. */
    method SyncExclude(tracked: seq<Path>) returns (ok: bool, wrote: bool)
      modifies this
      ensures ok == UserLines(old(Current())).Some?
      ensures ok ==> Some(Current()) == Rewritten(old(Current()), tracked)
      ensures wrote <==> Current() != old(Current())
      ensures !wrote ==> file == old(file)
    {
      var lines := LinesOf(Current());
      var begin, end := IndexOf(lines, BEGIN_EXCLUDE), IndexOf(lines, END_EXCLUDE);
      ghost var text := Current();
      if (begin == -1) != (end == -1) || (begin != -1 && end < begin) { return false, false; }
      var without := if begin == -1 then lines else lines[..begin] + lines[end + 1..];
      without := PopBlank(without);
      var managed := if |tracked| > 0 then ["", BEGIN_EXCLUDE] + Entries(tracked) + [END_EXCLUDE] else [];
      var next := Join(without + managed, '\n');
      var contents := if next != "" then next + "\n" else "";
      RewrittenIs(text, tracked, without, managed, contents);
      wrote := contents != Current();
      if wrote { file := Some(contents); }
      ok := true;
    }

    static method PopBlank(lines: Lines) returns (without: Lines)
      ensures without == TrimEnd(lines)
    {
      without := lines;
      while |without| > 0 && without[|without| - 1] == ""
        invariant TrimEnd(without) == TrimEnd(lines)
      {
        without := without[..|without| - 1];
      }
    }
  }
}
