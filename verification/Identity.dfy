/**
 * src/workspace.js:26-31, src/live-workspace.js:19-29, src/protocol.js:69-74: the texts whose hashes name a
 * snapshot. Each can be read back in one way only, so equal names mean equal snapshots or a hash collision.
 */
module Identity {
  import opened Basics
  import opened Strings

  type Sha256 = string

  /** A content digest and a size; None is a deletion. */
  datatype Content = Content(sha256: Sha256, size: nat)
  datatype FileRecord = FileRecord(path: Path, content: Option<Content>)
  datatype LiveRecord = LiveRecord(path: Path, content: Option<Content>, base: Option<Sha256>, executable: bool)

  // ---------------------------------------------------------------- the texts

  function Digit(n: nat): char
    requires n < 10
  {
    '0' + n as char
  }

  function Decimal(n: nat): string {
    if n < 10 then [Digit(n)] else Decimal(n / 10) + [Digit(n % 10)]
  }

  function ContentFields(content: Option<Content>): seq<string> {
    match content
    case None => ["-"]
    case Some(c) => [c.sha256, Decimal(c.size)]
  }

  function OrDash(sha256: Option<Sha256>): string {
    if sha256.Some? then sha256.value else "-"
  }

  function FileLine(f: FileRecord): string {
    Join([f.path] + ContentFields(f.content), '\0')
  }

  function LiveLine(f: LiveRecord): string {
    Join([f.path] + ContentFields(f.content) + [OrDash(f.base), if f.executable then "x" else "-"], '\0')
  }

  function FileLines(files: seq<FileRecord>): seq<string> {
    seq(|files|, i requires 0 <= i < |files| => FileLine(files[i]))
  }

  function LiveLines(live: seq<LiveRecord>): seq<string> {
    seq(|live|, i requires 0 <= i < |live| => LiveLine(live[i]))
  }

  function WorkspaceText(files: seq<FileRecord>): string {
    "gitpigeon-workspace-v1\0" + Terminated(FileLines(files))
  }

  function LiveWorkspaceText(live: seq<LiveRecord>): string {
    "gitpigeon-live-workspace-v1\0" + Join(LiveLines(live), '\n')
  }

  function SnapshotFields(bundle: Option<Sha256>, filesDigest: Sha256, liveDigest: Sha256,
                          chunkSize: nat): seq<string> {
    ["gitpigeon-snapshot-v3", OrDash(bundle), filesDigest, liveDigest, Decimal(chunkSize)]
  }

  function SnapshotText(bundle: Option<Sha256>, filesDigest: Sha256, liveDigest: Sha256, chunkSize: nat): string {
    Join(SnapshotFields(bundle, filesDigest, liveDigest, chunkSize), '\0')
  }

  // ---------------------------------------------------------------- what may stand in a field

  predicate Plain(s: string) {
    '\0' !in s && '\n' !in s
  }

  predicate Hex(s: Sha256) {
    |s| == 64 && forall i :: 0 <= i < |s| ==> '0' <= s[i] <= '9' || 'a' <= s[i] <= 'f'
  }

  /** Normalized paths hold no control characters and are not empty. */
  predicate GoodPath(path: Path) {
    path != "" && forall i :: 0 <= i < |path| ==> path[i] as int >= 32 && path[i] as int != 127
  }

  predicate GoodContent(content: Option<Content>) {
    content.Some? ==> Hex(content.value.sha256)
  }

  predicate GoodFile(f: FileRecord) {
    GoodPath(f.path) && GoodContent(f.content)
  }

  predicate GoodLive(f: LiveRecord) {
    GoodPath(f.path) && GoodContent(f.content) && (f.base.Some? ==> Hex(f.base.value))
  }

  function Value(s: string): int {
    if s == "" then 0 else 10 * Value(s[..|s| - 1]) + (s[|s| - 1] as int - '0' as int)
  }

  lemma {:induction false} DecimalReadBack(n: nat)
    ensures Value(Decimal(n)) == n && Plain(Decimal(n))
  {
    if n < 10 {
      assert Value([Digit(n)]) == 10 * Value([]) + n;
    } else {
      DecimalReadBack(n / 10);
      assert Decimal(n)[..|Decimal(n)| - 1] == Decimal(n / 10);
    }
  }

  /** What a content's fields are: one dash, or a digest and a number. */
  lemma FieldsArePlain(path: Path, content: Option<Content>)
    requires GoodPath(path) && GoodContent(content)
    ensures Plain(path) && forall i :: 0 <= i < |ContentFields(content)| ==> Plain(ContentFields(content)[i])
  {
    if content.Some? { DecimalReadBack(content.value.size); }
  }

  // ---------------------------------------------------------------- reading back, one way only

  lemma {:induction false} JoinIsPlain(parts: seq<string>)
    requires forall i :: 0 <= i < |parts| ==> '\n' !in parts[i]
    ensures '\n' !in Join(parts, '\0')
  {
    if |parts| > 1 { JoinIsPlain(parts[1..]); }
  }

  lemma SameFields(a: seq<string>, b: seq<string>)
    requires a != [] && b != [] && Join(a, '\0') == Join(b, '\0')
    requires (forall i :: 0 <= i < |a| ==> Plain(a[i])) && forall i :: 0 <= i < |b| ==> Plain(b[i])
    ensures a == b
  {
    SplitJoin(a, '\0');
    SplitJoin(b, '\0');
  }

  lemma SameContent(a: Option<Content>, b: Option<Content>)
    requires ContentFields(a) == ContentFields(b)
    ensures a == b
  {
    if a.Some? && b.Some? {
      assert ContentFields(a)[0] == ContentFields(b)[0] && ContentFields(a)[1] == ContentFields(b)[1];
      DecimalReadBack(a.value.size);
      DecimalReadBack(b.value.size);
    } else {
      assert |ContentFields(a)| == |ContentFields(b)|;
    }
  }

  lemma FileLineIsPlain(f: FileRecord)
    requires GoodFile(f)
    ensures '\n' !in FileLine(f)
    ensures forall i :: 0 <= i < |[f.path] + ContentFields(f.content)| ==>
              Plain(([f.path] + ContentFields(f.content))[i])
  {
    FieldsArePlain(f.path, f.content);
    JoinIsPlain([f.path] + ContentFields(f.content));
  }

  lemma SameFileLine(a: FileRecord, b: FileRecord)
    requires GoodFile(a) && GoodFile(b) && FileLine(a) == FileLine(b)
    ensures a == b
  {
    var s, t := [a.path] + ContentFields(a.content), [b.path] + ContentFields(b.content);
    FileLineIsPlain(a);
    FileLineIsPlain(b);
    SameFields(s, t);
    assert s[0] == t[0] && s[1..] == ContentFields(a.content) && t[1..] == ContentFields(b.content);
    SameContent(a.content, b.content);
  }

  function LiveFields(f: LiveRecord): seq<string> {
    [f.path] + ContentFields(f.content) + [OrDash(f.base), if f.executable then "x" else "-"]
  }

  lemma LiveLineIsPlain(f: LiveRecord)
    requires GoodLive(f)
    ensures '\n' !in LiveLine(f) && forall i :: 0 <= i < |LiveFields(f)| ==> Plain(LiveFields(f)[i])
  {
    FieldsArePlain(f.path, f.content);
    JoinIsPlain(LiveFields(f));
  }

  lemma SameLiveLine(a: LiveRecord, b: LiveRecord)
    requires GoodLive(a) && GoodLive(b) && LiveLine(a) == LiveLine(b)
    ensures a == b
  {
    var s, t := LiveFields(a), LiveFields(b);
    LiveLineIsPlain(a);
    LiveLineIsPlain(b);
    SameFields(s, t);
    var n := |s|;
    assert s[0] == t[0] && s[n - 2] == t[n - 2] && s[n - 1] == t[n - 1];
    assert s[1..n - 2] == ContentFields(a.content) && t[1..n - 2] == ContentFields(b.content);
    SameContent(a.content, b.content);
  }

  /** A list of private files is read back from its text in one way only. */
  lemma WorkspaceTextIsFaithful(a: seq<FileRecord>, b: seq<FileRecord>)
    requires (forall i :: 0 <= i < |a| ==> GoodFile(a[i])) && forall i :: 0 <= i < |b| ==> GoodFile(b[i])
    ensures WorkspaceText(a) == WorkspaceText(b) <==> a == b
  {
    if WorkspaceText(a) == WorkspaceText(b) {
      var s, t := FileLines(a), FileLines(b);
      forall i | 0 <= i < |a| ensures '\n' !in s[i] { FileLineIsPlain(a[i]); }
      forall i | 0 <= i < |b| ensures '\n' !in t[i] { FileLineIsPlain(b[i]); }
      SameRest("gitpigeon-workspace-v1\0", Terminated(s), Terminated(t));
      SplitTerminated(s);
      SplitTerminated(t);
      assert s == (s + [""])[..|s|] && t == (t + [""])[..|t|];
      forall i | 0 <= i < |a| ensures a[i] == b[i] {
        assert FileLine(a[i]) == s[i] == t[i] == FileLine(b[i]);
        SameFileLine(a[i], b[i]);
      }
    }
  }

  lemma SameRest(prefix: string, a: string, b: string)
    requires prefix + a == prefix + b
    ensures a == b
  {
    assert a == (prefix + a)[|prefix|..] && b == (prefix + b)[|prefix|..];
  }

  /** So is an overlay; no line of it is empty, which keeps the empty overlay apart. */
  lemma LiveWorkspaceTextIsFaithful(a: seq<LiveRecord>, b: seq<LiveRecord>)
    requires (forall i :: 0 <= i < |a| ==> GoodLive(a[i])) && forall i :: 0 <= i < |b| ==> GoodLive(b[i])
    ensures LiveWorkspaceText(a) == LiveWorkspaceText(b) <==> a == b
  {
    if LiveWorkspaceText(a) == LiveWorkspaceText(b) {
      var s, t := LiveLines(a), LiveLines(b);
      SameRest("gitpigeon-live-workspace-v1\0", Join(s, '\n'), Join(t, '\n'));
      OverlayReadBack(a);
      OverlayReadBack(b);
      assert s == t;
      forall i | 0 <= i < |a| ensures a[i] == b[i] {
        assert LiveLine(a[i]) == s[i] == t[i] == LiveLine(b[i]);
        SameLiveLine(a[i], b[i]);
      }
    }
  }

  lemma OverlayReadBack(live: seq<LiveRecord>)
    requires forall i :: 0 <= i < |live| ==> GoodLive(live[i])
    ensures var text := Join(LiveLines(live), '\n');
            LiveLines(live) == if text == "" then [] else Split(text, '\n')
  {
    var lines := LiveLines(live);
    if live != [] {
      forall i | 0 <= i < |live| ensures '\n' !in lines[i] && lines[i] != "" {
        LiveLineIsPlain(live[i]);
        assert lines[i][0] == live[i].path[0];
      }
      SplitJoin(lines, '\n');
      assert Join(lines, '\n')[0] == lines[0][0];
    }
  }

  predicate GoodNames(bundle: Option<Sha256>, filesDigest: Sha256, liveDigest: Sha256) {
    (bundle.Some? ==> Hex(bundle.value)) && Hex(filesDigest) && Hex(liveDigest)
  }

  lemma SnapshotFieldsArePlain(b: Option<Sha256>, f: Sha256, l: Sha256, n: nat)
    requires GoodNames(b, f, l)
    ensures forall i :: 0 <= i < 5 ==> Plain(SnapshotFields(b, f, l, n)[i])
  {
    DecimalReadBack(n);
  }

  /** And so are the four names a snapshot's own name is made of. */
  lemma SnapshotTextIsFaithful(b: Option<Sha256>, f: Sha256, l: Sha256, n: nat, b': Option<Sha256>, f': Sha256,
                               l': Sha256, n': nat)
    requires GoodNames(b, f, l) && GoodNames(b', f', l')
    ensures SnapshotText(b, f, l, n) == SnapshotText(b', f', l', n') <==> b == b' && f == f' && l == l' && n == n'
  {
    if SnapshotText(b, f, l, n) == SnapshotText(b', f', l', n') {
      var s, t := SnapshotFields(b, f, l, n), SnapshotFields(b', f', l', n');
      SnapshotFieldsArePlain(b, f, l, n);
      SnapshotFieldsArePlain(b', f', l', n');
      SameFields(s, t);
      assert s[1] == t[1] && s[2] == t[2] && s[3] == t[3] && s[4] == t[4];
      DecimalReadBack(n);
      DecimalReadBack(n');
    }
  }

  // ---------------------------------------------------------------- snapshots and their ids

  /** The files themselves, with their bytes. */
  datatype File = File(path: Path, data: Option<Bytes>)
  datatype LiveFile = LiveFile(path: Path, data: Option<Bytes>, base: Option<Sha256>, executable: bool)
  datatype Snapshot = Snapshot(bundle: Option<Bytes>, files: seq<File>, live: seq<LiveFile>, chunkSize: nat)

  /** SHA-256 of a text and of bytes: any functions with 64 hex digits will do. */
  datatype Hash = Hash(text: string -> Sha256, bytes: Bytes -> Sha256)

  ghost predicate IsHash(h: Hash) {
    (forall s :: Hex(h.text(s))) && forall d :: Hex(h.bytes(d))
  }

  function ContentOf(h: Hash, data: Option<Bytes>): Option<Content> {
    if data.Some? then Some(Content(h.bytes(data.value), |data.value|)) else None
  }

  function FileRecords(h: Hash, files: seq<File>): seq<FileRecord> {
    seq(|files|, i requires 0 <= i < |files| => FileRecord(files[i].path, ContentOf(h, files[i].data)))
  }

  function LiveRecords(h: Hash, live: seq<LiveFile>): seq<LiveRecord> {
    seq(|live|, i requires 0 <= i < |live| =>
      LiveRecord(live[i].path, ContentOf(h, live[i].data), live[i].base, live[i].executable))
  }

  function BundleDigest(h: Hash, bundle: Option<Bytes>): Option<Sha256> {
    if bundle.Some? then Some(h.bytes(bundle.value)) else None
  }

  function IdText(h: Hash, s: Snapshot): string {
    SnapshotText(BundleDigest(h, s.bundle), h.text(WorkspaceText(FileRecords(h, s.files))),
                 h.text(LiveWorkspaceText(LiveRecords(h, s.live))), s.chunkSize)
  }

  function Id(h: Hash, s: Snapshot): Sha256 {
    h.text(IdText(h, s))
  }

  predicate Normalized(s: Snapshot) {
    && (forall i :: 0 <= i < |s.files| ==> GoodPath(s.files[i].path))
    && (forall i :: 0 <= i < |s.live| ==>
        GoodPath(s.live[i].path) && (s.live[i].base.Some? ==> Hex(s.live[i].base.value)))
  }

  predicate TextsCollide(h: Hash, a: string, b: string) {
    a != b && h.text(a) == h.text(b)
  }

  predicate BytesCollide(h: Hash, a: Option<Bytes>, b: Option<Bytes>) {
    a.Some? && b.Some? && a.value != b.value && h.bytes(a.value) == h.bytes(b.value)
  }

  ghost predicate FilesCollide(h: Hash, a: seq<File>, b: seq<File>) {
    exists i :: 0 <= i < |a| && i < |b| && BytesCollide(h, a[i].data, b[i].data)
  }

  ghost predicate LiveCollides(h: Hash, a: seq<LiveFile>, b: seq<LiveFile>) {
    exists i :: 0 <= i < |a| && i < |b| && BytesCollide(h, a[i].data, b[i].data)
  }

  lemma SameRecordsSameFiles(h: Hash, a: seq<File>, b: seq<File>)
    requires FileRecords(h, a) == FileRecords(h, b)
    ensures a == b || FilesCollide(h, a, b)
  {
    assert |FileRecords(h, a)| == |FileRecords(h, b)|;
    if !FilesCollide(h, a, b) {
      forall i | 0 <= i < |a| ensures a[i] == b[i] {
        assert FileRecords(h, a)[i] == FileRecords(h, b)[i];
        assert !BytesCollide(h, a[i].data, b[i].data);
      }
    }
  }

  lemma SameRecordsSameOverlay(h: Hash, a: seq<LiveFile>, b: seq<LiveFile>)
    requires LiveRecords(h, a) == LiveRecords(h, b)
    ensures a == b || LiveCollides(h, a, b)
  {
    assert |LiveRecords(h, a)| == |LiveRecords(h, b)|;
    if !LiveCollides(h, a, b) {
      forall i | 0 <= i < |a| ensures a[i] == b[i] {
        assert LiveRecords(h, a)[i] == LiveRecords(h, b)[i];
        assert !BytesCollide(h, a[i].data, b[i].data);
      }
    }
  }

  /**
   * Two different snapshots with one id exhibit a collision of the hash, among the texts and bytes they are made of.
   */
  ghost predicate Collision(h: Hash, s: Snapshot, t: Snapshot) {
    || TextsCollide(h, IdText(h, s), IdText(h, t))
    || TextsCollide(h, WorkspaceText(FileRecords(h, s.files)), WorkspaceText(FileRecords(h, t.files)))
    || TextsCollide(h, LiveWorkspaceText(LiveRecords(h, s.live)), LiveWorkspaceText(LiveRecords(h, t.live)))
    || BytesCollide(h, s.bundle, t.bundle) || FilesCollide(h, s.files, t.files) || LiveCollides(h, s.live, t.live)
  }

  /** Equal ids mean the same bundle, private files, overlay and chunk size, short of a hash collision. */
  lemma IdIsFaithful(h: Hash, s: Snapshot, t: Snapshot)
    requires IsHash(h) && Normalized(s) && Normalized(t) && !Collision(h, s, t)
    ensures Id(h, s) == Id(h, t) <==> s == t
  {
    if Id(h, s) == Id(h, t) {
      assert IdText(h, s) == IdText(h, t);
      var fs, ft := FileRecords(h, s.files), FileRecords(h, t.files);
      var ls, lt := LiveRecords(h, s.live), LiveRecords(h, t.live);
      SnapshotTextIsFaithful(
        BundleDigest(h, s.bundle), h.text(WorkspaceText(fs)), h.text(LiveWorkspaceText(ls)), s.chunkSize,
        BundleDigest(h, t.bundle), h.text(WorkspaceText(ft)), h.text(LiveWorkspaceText(lt)), t.chunkSize);
      WorkspaceTextIsFaithful(fs, ft);
      LiveWorkspaceTextIsFaithful(ls, lt);
      SameRecordsSameFiles(h, s.files, t.files);
      SameRecordsSameOverlay(h, s.live, t.live);
    }
  }
}
