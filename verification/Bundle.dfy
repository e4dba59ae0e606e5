/** Submission bundles (internal/bundle/bundle.go): the writer, the verifier, and
    exactly what the verifier accepts. A zip file is its list of entries; JSON,
    SHA-256 and Ed25519 are parameters. */
module Bundle {
  import opened Text
  import opened PackagePaths
  import opened Zip
  import opened Options
  import Paths

  const MAX_ENTRIES := 64
  const MAX_ENTRY := 67_108_864
  const MAX_TOTAL := 268_435_456
  const MAX_FILE := 536_870_912

  const MANIFEST := "manifest.json"
  const SIGNATURE := "manifest.sig"

  /** evidence.Manifest: who and what, the head of the chain, and a hash per file. */
  datatype Manifest = Manifest(event: string, scenario: string, team: string, session: string, digest: string,
                               chainHead: string, files: map<string, string>)

  datatype Codec = Codec(
    decodeManifest: Data -> Option<Manifest>,
    decodeSignature: Data -> Option<string>,
    encodeManifest: Manifest -> Data,
    encodeSignature: string -> Data,
    sha: Data -> string,
    verify: (Manifest, string) -> bool,
    sign: Manifest -> string)
  {
    /** The codecs are inverse, signatures verify, and a hash is 64 hex digits. */
    ghost predicate Sane() {
      && (forall m :: decodeManifest(encodeManifest(m)) == Just(m) && verify(m, sign(m)))
      && (forall s :: decodeSignature(encodeSignature(s)) == Just(s))
      && (forall d :: IsHash(sha(d)))
    }
  }

  predicate HexDigit(c: char) { '0' <= c <= '9' || 'a' <= c <= 'f' || 'A' <= c <= 'F' }

  predicate IsHash(s: string) { |s| == 64 && forall c | c in s :: HexDigit(c) }

  datatype Error =
    | FileTooLarge | NotZip | TooManyEntries | DirectoryEntry | UnsafeEntry | DuplicateEntry | SymlinkEntry
    | EntryTooLarge | Unreadable | TotalTooLarge | BadManifest | BadSignature | InvalidFileName
    | InvalidHash | MissingFile | HashMismatch | UnsignedEntry

  datatype Result = Ok(manifest: Manifest) | Err(error: Error)

  // ---- what is accepted ----

  predicate PlainEntry(e: Entry) {
    && !e.directory && !e.symlink && SafeName(e.name)
    && e.declared <= MAX_ENTRY && e.content.Just? && |e.content.value| <= MAX_ENTRY
  }

  function Total(entries: seq<Entry>): nat {
    if entries == [] then 0
    else Total(entries[..|entries| - 1]) + (var e := entries[|entries| - 1]; if e.content.Just? then |e.content.value| else 0)
  }

  predicate Unrepeated(entries: seq<Entry>) {
    forall i, j | 0 <= i < j < |entries| :: entries[i].name != entries[j].name
  }

  /** The entries pass every limit: the files by name. */
  predicate Readable(entries: seq<Entry>) {
    && |entries| <= MAX_ENTRIES && (forall e | e in entries :: PlainEntry(e))
    && Unrepeated(entries) && Total(entries) <= MAX_TOTAL
  }

  function Names(entries: seq<Entry>): set<string> { set e | e in entries :: e.name }

  function Files(entries: seq<Entry>): map<string, Data> {
    if entries == [] then map[]
    else
      var e := entries[|entries| - 1];
      Files(entries[..|entries| - 1])[e.name := if e.content.Just? then e.content.value else []]
  }

  /** The files are the manifest's, with its hashes, and the two manifest entries. */
  predicate Covers(C: Codec, m: Manifest, files: map<string, Data>) {
    && files.Keys == m.files.Keys + {MANIFEST, SIGNATURE}
    && MANIFEST !in m.files && SIGNATURE !in m.files
    && (forall n | n in m.files :: SafeName(n) && IsHash(m.files[n]) && n in files && C.sha(files[n]) == m.files[n])
  }

  /** A readable bundle whose manifest is signed and covers it. */
  predicate Genuine(C: Codec, m: Manifest, files: map<string, Data>) {
    && MANIFEST in files && SIGNATURE in files
    && C.decodeManifest(files[MANIFEST]) == Just(m)
    && C.decodeSignature(files[SIGNATURE]).Just?
    && C.verify(m, C.decodeSignature(files[SIGNATURE]).value)
    && Covers(C, m, files)
  }

  predicate Accepts(C: Codec, m: Manifest, size: int, entries: seq<Entry>) {
    0 <= size <= MAX_FILE && Readable(entries) && Genuine(C, m, Files(entries))
  }

  // ---- the verifier ----

  lemma FilesNext(entries: seq<Entry>, i: nat)
    requires i < |entries|
    ensures Files(entries[..i + 1]) == Files(entries[..i])[entries[i].name := if entries[i].content.Just? then entries[i].content.value else []]
    ensures Total(entries[..i + 1]) == Total(entries[..i]) + if entries[i].content.Just? then |entries[i].content.value| else 0
  {
    assert entries[..i + 1][..i] == entries[..i];
  }

  lemma {:induction false} TotalGrows(entries: seq<Entry>, i: nat)
    requires i <= |entries|
    ensures Total(entries[..i]) <= Total(entries)
    decreases |entries| - i
  {
    if i < |entries| {
      FilesNext(entries, i);
      TotalGrows(entries, i + 1);
    } else {
      assert entries[..i] == entries;
    }
  }

  lemma NoEntries()
    ensures Files([]) == map[] && Total([]) == 0
  {}

  /** The loop of VerifyReader over the entries. */
  method ReadEntries(entries: seq<Entry>) returns (files: map<string, Data>, error: Option<Error>)
    ensures error == Nothing <==> Readable(entries)
    ensures error == Nothing ==> files == Files(entries)
  {
    hide SafeName, Files, Total;
    files := map[];
    NoEntries();
    var seen: set<string> := {};
    var total := 0;
    for index := 0 to |entries|
      invariant index <= MAX_ENTRIES && files == Files(entries[..index]) && total == Total(entries[..index]) <= MAX_TOTAL
      invariant forall k | 0 <= k < index :: PlainEntry(entries[k])
      invariant seen == set k | 0 <= k < index :: entries[k].name
      invariant Unrepeated(entries[..index])
    {
      var entry := entries[index];
      FilesNext(entries, index);
      TotalGrows(entries, index + 1);
      assert entry in entries;
      if index >= MAX_ENTRIES { return files, Just(TooManyEntries); }
      if entry.directory { return files, Just(DirectoryEntry); }
      if !SafeName(entry.name) { return files, Just(UnsafeEntry); }
      if entry.name in seen { return files, Just(DuplicateEntry); }
      seen := seen + {entry.name};
      if entry.symlink { return files, Just(SymlinkEntry); }
      if entry.declared > MAX_ENTRY { return files, Just(EntryTooLarge); }
      if entry.content.Nothing? { return files, Just(Unreadable); }
      var data := entry.content.value;
      if |data| > MAX_ENTRY { return files, Just(EntryTooLarge); }
      total := total + |data|;
      if total > MAX_TOTAL { return files, Just(TotalTooLarge); }
      files := files[entry.name := data];
    }
    assert entries[..|entries|] == entries;
    error := Nothing;
  }

  /** The loops over the manifest's files and over the entries. */
  method CheckFiles(C: Codec, m: Manifest, files: map<string, Data>) returns (error: Option<Error>)
    requires MANIFEST in files && SIGNATURE in files
    ensures error == Nothing <==> Covers(C, m, files)
  {
    hide SafeName, MANIFEST, SIGNATURE;
    var allowed := {MANIFEST, SIGNATURE};
    var todo := m.files.Keys;
    while todo != {}
      invariant todo <= m.files.Keys && allowed == m.files.Keys - todo + {MANIFEST, SIGNATURE}
      invariant forall n | n in m.files && n !in todo ::
                  n != MANIFEST && n != SIGNATURE && SafeName(n) && IsHash(m.files[n]) && n in files && C.sha(files[n]) == m.files[n]
      decreases todo
    {
      var name :| name in todo;
      var expected := m.files[name];
      if !SafeName(name) || name == MANIFEST || name == SIGNATURE { return Just(InvalidFileName); }
      if !IsHash(expected) { return Just(InvalidHash); }
      if name !in files { return Just(MissingFile); }
      if C.sha(files[name]) != expected { return Just(HashMismatch); }
      allowed := allowed + {name};
      todo := todo - {name};
    }
    var rest := files.Keys;
    while rest != {}
      invariant rest <= files.Keys && forall n | n in files && n !in rest :: n in allowed
      decreases rest
    {
      var name :| name in rest;
      if name !in allowed { return Just(UnsignedEntry); }
      rest := rest - {name};
    }
    error := Nothing;
  }

  /** VerifyReader accepts a bundle, and returns its manifest, exactly when it is genuine. */
  method VerifyReader(C: Codec, size: int, zip: Option<seq<Entry>>) returns (r: Result)
    ensures r.Ok? <==> zip.Just? && exists m :: Accepts(C, m, size, zip.value)
    ensures r.Ok? ==> Accepts(C, r.manifest, size, zip.value)
  {
    hide MANIFEST, SIGNATURE, Covers, Readable, Files;
    if size < 0 || size > MAX_FILE { return Err(FileTooLarge); }
    if zip.Nothing? { return Err(NotZip); }
    var files, error := ReadEntries(zip.value);
    if error.Just? { return Err(error.value); }
    if MANIFEST !in files { return Err(BadManifest); }
    var manifest := C.decodeManifest(files[MANIFEST]);
    if manifest.Nothing? { return Err(BadManifest); }
    if SIGNATURE !in files { return Err(BadSignature); }
    var signature := C.decodeSignature(files[SIGNATURE]);
    if signature.Nothing? { return Err(BadSignature); }
    if !C.verify(manifest.value, signature.value) { return Err(BadSignature); }
    error := CheckFiles(C, manifest.value, files);
    if error.Just? { return Err(error.value); }
    assert Accepts(C, manifest.value, size, zip.value);
    r := Ok(manifest.value);
  }

  // ---- accepted bundles with one manifest ----

  /** Everything but the two manifest entries. */
  function Payload(files: map<string, Data>): map<string, Data> { files - {MANIFEST, SIGNATURE} }

  /** Two different contents with one hash. */
  ghost predicate Collision(C: Codec, a: map<string, Data>, b: map<string, Data>) {
    exists n | n in a && n in b :: a[n] != b[n] && C.sha(a[n]) == C.sha(b[n])
  }

  /** The manifest determines the payload, unless the payloads are a hash collision. */
  lemma ManifestDeterminesPayload(C: Codec, m: Manifest, a: int, x: seq<Entry>, b: int, y: seq<Entry>)
    requires Accepts(C, m, a, x) && Accepts(C, m, b, y)
    ensures var p, q := Payload(Files(x)), Payload(Files(y)); p == q || Collision(C, p, q)
  {
    hide MANIFEST, SIGNATURE, Readable, Files, SafeName, IsHash;
    var p, q := Payload(Files(x)), Payload(Files(y));
    assert p.Keys == m.files.Keys == q.Keys;
    if p != q {
      var n :| n in p && p[n] != q[n];
      assert C.sha(p[n]) == m.files[n] == C.sha(q[n]);
    }
  }

  /** Nothing is accepted under a manifest that no signature fits, and nothing with a file that the
      manifest does not list, or without one that it does. */
  lemma OnlySigned(C: Codec, m: Manifest, size: int, entries: seq<Entry>)
    requires Accepts(C, m, size, entries)
    ensures exists s :: C.verify(m, s)
    ensures forall n :: n in Names(entries) <==> n in m.files || n == MANIFEST || n == SIGNATURE
  {
    hide MANIFEST, SIGNATURE, Readable, Names, Files, SafeName, IsHash;
    FilesByName(entries);
    assert C.verify(m, C.decodeSignature(Files(entries)[SIGNATURE]).value);
  }

  lemma {:induction false} FilesByName(entries: seq<Entry>)
    ensures Files(entries).Keys == Names(entries)
  {
    if entries != [] {
      var front := entries[..|entries| - 1];
      FilesByName(front);
      assert entries == front + [entries[|entries| - 1]];
      forall n ensures n in Names(entries) <==> n in Names(front) || n == entries[|entries| - 1].name {
        if n in Names(front) { var e :| e in front && e.name == n; assert e in entries; }
        if n in Names(entries) { var e :| e in entries && e.name == n; }
      }
    }
  }

  // ---- the writer ----

  /** What goes into a bundle: the six renderings of the report, the hashes of its events, and the
      manifest's fields. */
  datatype Submission = Submission(markdown: Data, report: Data, transcript: Data, timeline: Data, diff: Data,
                                   scenario: Data, hashes: seq<string>, manifest: Manifest)

  const REPORT_TEXT := "report.md"
  const REPORT_DATA := "report.json"
  const TRANSCRIPT := "transcript.txt"
  const TIMELINE := "timeline.jsonl"
  const STATE_DIFF := "state-diff.patch"
  const SCENARIO := "scenario-manifest.json"

  function Renderings(s: Submission): map<string, Data> {
    map[REPORT_TEXT := s.markdown, REPORT_DATA := s.report, TRANSCRIPT := s.transcript,
        TIMELINE := s.timeline, STATE_DIFF := s.diff, SCENARIO := s.scenario]
  }

  function Hashes(C: Codec, files: map<string, Data>): map<string, string> { map n | n in files :: C.sha(files[n]) }

  /** The head of the chain is its last hash, when there is one. */
  function Headed(s: Submission): Manifest {
    if s.hashes == [] then s.manifest else s.manifest.(chainHead := s.hashes[|s.hashes| - 1])
  }

  function Signed(C: Codec, s: Submission): Manifest { Headed(s).(files := Hashes(C, Renderings(s))) }

  function Bundled(C: Codec, s: Submission): map<string, Data> {
    WithManifest(C, Renderings(s), Signed(C, s))
  }

  function Entries(files: map<string, Data>, names: seq<string>): seq<Entry>
    requires forall n | n in names :: n in files
  {
    seq(|names|, i requires 0 <= i < |names| => FileEntry(names[i], files[names[i]]))
  }

  method HashAll(C: Codec, files: map<string, Data>) returns (hashes: map<string, string>)
    ensures hashes == Hashes(C, files)
  {
    hashes := map[];
    var todo := files.Keys;
    while todo != {}
      invariant todo <= files.Keys && hashes == map n | n in files && n !in todo :: C.sha(files[n])
      decreases todo
    {
      var name :| name in todo;
      hashes := hashes[name := C.sha(files[name])];
      todo := todo - {name};
    }
  }

  method Emit(files: map<string, Data>) returns (entries: seq<Entry>)
    ensures entries == Entries(files, Sorted(files.Keys))
  {
    hide StrictlySorted, FileEntry;
    var names := Sorted(files.Keys);
    entries := [];
    for i := 0 to |names|
      invariant |entries| == i && forall k | 0 <= k < i :: entries[k] == FileEntry(names[k], files[names[k]])
    {
      assert names[i] in names;
      entries := entries + [FileEntry(names[i], files[names[i]])];
    }
  }

  /** Write: hash every rendering, sign, and emit the entries in name order. */
  method Write(C: Codec, s: Submission) returns (entries: seq<Entry>)
    ensures entries == Entries(Bundled(C, s), Sorted(Bundled(C, s).Keys))
  {
    hide Renderings, MANIFEST, SIGNATURE, Entries, Hashes;
    var files := Renderings(s);
    var hashes := HashAll(C, files);
    var manifest := s.manifest.(files := hashes);
    if |s.hashes| > 0 { manifest := manifest.(chainHead := s.hashes[|s.hashes| - 1]); }
    var signature := C.sign(manifest);
    files := files[MANIFEST := C.encodeManifest(manifest)];
    files := files[SIGNATURE := C.encodeSignature(signature)];
    entries := Emit(files);
  }

  // ---- what is written is accepted ----

  lemma {:induction false} EntriesFiles(files: map<string, Data>, names: seq<string>)
    requires forall n | n in names :: n in files
    ensures Files(Entries(files, names)) == map n | n in names :: files[n]
  {
    if names != [] {
      var init := names[..|names| - 1];
      assert forall n | n in init :: n in names;
      assert Entries(files, names)[..|names| - 1] == Entries(files, init);
      assert names[|names| - 1] in names;
      EntriesFiles(files, init);
    }
  }

  lemma SortedUnrepeated(files: map<string, Data>, names: seq<string>)
    requires StrictlySorted(names) && forall n | n in names :: n in files
    ensures Unrepeated(Entries(files, names))
  {
    forall i, j | 0 <= i < j < |names| ensures names[i] != names[j] {
      assert Less(names[i], names[j]);
      LessIrreflexive(names[i]);
    }
  }

  predicate PlainChar(c: char) { 'a' <= c <= 'z' || c == '.' || c == '-' }

  lemma {:induction false} ByteLenBound(s: string)
    ensures ByteLen(s) <= 4 * |s|
  {
    if s != "" { ByteLenBound(s[1..]); }
  }

  /** A name of letters, dots and dashes, neither very short nor very long, is safe. */
  lemma PlainName(n: string)
    requires 3 <= |n| <= 1024 && forall c | c in n :: PlainChar(c)
    ensures SafeName(n)
  {
    ByteLenBound(n);
    assert Paths.ValidPart(n) && !Dangerous(n) && '\\' !in n;
    OneComponent(n);
    SafeNameExact(n);
  }

  lemma NamesApart()
    ensures |REPORT_TEXT| == 9 && |REPORT_DATA| == 11 && |TRANSCRIPT| == 14 && |TIMELINE| == 14
    ensures |STATE_DIFF| == 16 && |SCENARIO| == 22 && |MANIFEST| == 13 && |SIGNATURE| == 12
    ensures TRANSCRIPT != TIMELINE
  {
    assert TRANSCRIPT[1] == 'r' && TIMELINE[1] == 'i';
  }

  lemma ReportNames()
    ensures forall n | n in {REPORT_TEXT, REPORT_DATA, TRANSCRIPT, TIMELINE} :: 3 <= |n| <= 1024 && forall c | c in n :: PlainChar(c)
  {}

  lemma OtherNames()
    ensures forall n | n in {STATE_DIFF, SCENARIO, MANIFEST, SIGNATURE} :: 3 <= |n| <= 1024 && forall c | c in n :: PlainChar(c)
  {}

  lemma NamesSafe()
    ensures forall n | n in {REPORT_TEXT, REPORT_DATA, TRANSCRIPT, TIMELINE, STATE_DIFF, SCENARIO, MANIFEST, SIGNATURE} :: SafeName(n)
  {
    hide SafeName, PlainChar, REPORT_TEXT, REPORT_DATA, TRANSCRIPT, TIMELINE, STATE_DIFF, SCENARIO, MANIFEST, SIGNATURE;
    ReportNames();
    OtherNames();
    forall n | n in {REPORT_TEXT, REPORT_DATA, TRANSCRIPT, TIMELINE, STATE_DIFF, SCENARIO, MANIFEST, SIGNATURE}
      ensures SafeName(n)
    {
      PlainName(n);
    }
  }

  lemma RenderingNames(s: Submission)
    ensures forall n | n in Renderings(s) :: SafeName(n)
    ensures MANIFEST !in Renderings(s) && SIGNATURE !in Renderings(s) && MANIFEST != SIGNATURE && |Renderings(s)| == 6
  {
    hide SafeName, REPORT_TEXT, REPORT_DATA, TRANSCRIPT, TIMELINE, STATE_DIFF, SCENARIO, MANIFEST, SIGNATURE;
    NamesApart();
    NamesSafe();
    assert Renderings(s).Keys == {REPORT_TEXT, REPORT_DATA, TRANSCRIPT, TIMELINE, STATE_DIFF, SCENARIO};
  }

  function WithManifest(C: Codec, files: map<string, Data>, m: Manifest): map<string, Data> {
    files[MANIFEST := C.encodeManifest(m)][SIGNATURE := C.encodeSignature(C.sign(m))]
  }

  /** Any safely named files, hashed, signed and put beside their manifest, are genuine. */
  lemma SignedIsGenuine(C: Codec, files: map<string, Data>, m: Manifest)
    requires C.Sane() && m.files == Hashes(C, files)
    requires MANIFEST !in files && SIGNATURE !in files && MANIFEST != SIGNATURE
    requires forall n | n in files :: SafeName(n)
    ensures Genuine(C, m, WithManifest(C, files, m))
    ensures |WithManifest(C, files, m)| == |files| + 2
  {
    hide SafeName, IsHash, Codec.Sane, Covers, Hashes, MANIFEST, SIGNATURE;
    SaneManifest(C, m);
    TwoMore(files, MANIFEST, C.encodeManifest(m), SIGNATURE, C.encodeSignature(C.sign(m)));
    SignedCovers(C, files, m, WithManifest(C, files, m));
  }

  lemma SignedCovers(C: Codec, files: map<string, Data>, m: Manifest, all: map<string, Data>)
    requires C.Sane() && m.files == Hashes(C, files)
    requires MANIFEST !in files && SIGNATURE !in files && (forall n | n in files :: SafeName(n))
    requires all.Keys == files.Keys + {MANIFEST, SIGNATURE} && forall n | n in files :: all[n] == files[n]
    ensures Covers(C, m, all)
  {
    hide SafeName, IsHash, Codec.Sane, MANIFEST, SIGNATURE;
    SaneHashes(C, files);
    assert m.files.Keys == files.Keys;
  }

  lemma OneMore<V>(files: map<string, V>, a: string, x: V)
    requires a !in files
    ensures files[a := x].Keys == files.Keys + {a} && |files[a := x]| == |files| + 1
  {
    assert |files[a := x].Keys| == |files.Keys + {a}| == |files.Keys| + 1;
  }

  lemma TwoMore<V>(files: map<string, V>, a: string, x: V, b: string, y: V)
    requires a !in files && b !in files && a != b
    ensures var all := files[a := x][b := y];
            && all.Keys == files.Keys + {a, b} && |all| == |files| + 2 && all[a] == x && all[b] == y
            && forall n | n in files :: all[n] == files[n]
  {
    OneMore(files, a, x);
    OneMore(files[a := x], b, y);
  }

  lemma SaneManifest(C: Codec, m: Manifest)
    requires C.Sane()
    ensures C.decodeManifest(C.encodeManifest(m)) == Just(m) && C.verify(m, C.sign(m))
    ensures C.decodeSignature(C.encodeSignature(C.sign(m))) == Just(C.sign(m))
  {}

  lemma SaneHashes(C: Codec, files: map<string, Data>)
    requires C.Sane()
    ensures forall n | n in files :: IsHash(C.sha(files[n]))
  {}

  /** Every written bundle is genuine. */
  lemma BundledIsGenuine(C: Codec, s: Submission)
    requires C.Sane()
    ensures Genuine(C, Signed(C, s), Bundled(C, s))
    ensures |Bundled(C, s)| == 8 && forall n | n in Bundled(C, s) :: SafeName(n)
  {
    hide Renderings, SafeName, Genuine, Hashes, MANIFEST, SIGNATURE, REPORT_TEXT, REPORT_DATA, TRANSCRIPT, TIMELINE, STATE_DIFF, SCENARIO;
    RenderingNames(s);
    NamesSafe();
    SignedIsGenuine(C, Renderings(s), Signed(C, s));
  }

  /** Every bundle that is written and stays within the size limits is accepted, and
      gives back its manifest. */
  lemma WrittenIsAccepted(C: Codec, s: Submission, size: int)
    requires C.Sane() && 0 <= size <= MAX_FILE
    requires forall n | n in Bundled(C, s) :: |Bundled(C, s)[n]| <= MAX_ENTRY
    requires Total(Entries(Bundled(C, s), Sorted(Bundled(C, s).Keys))) <= MAX_TOTAL
    ensures Accepts(C, Signed(C, s), size, Entries(Bundled(C, s), Sorted(Bundled(C, s).Keys)))
  {
    hide Bundled, Genuine, SafeName, Total, Unrepeated, Files, PlainEntry, Signed;
    var files := Bundled(C, s);
    var names := Sorted(files.Keys);
    BundledIsGenuine(C, s);
    EntriesFiles(files, names);
    SortedUnrepeated(files, names);
    EntriesPlain(files, names);
    assert Files(Entries(files, names)) == files;
  }

  lemma EntriesPlain(files: map<string, Data>, names: seq<string>)
    requires forall n | n in names :: n in files && SafeName(n) && |files[n]| <= MAX_ENTRY
    ensures forall e | e in Entries(files, names) :: PlainEntry(e)
  {
    hide SafeName;
    forall e | e in Entries(files, names) ensures PlainEntry(e) {
      var i :| 0 <= i < |names| && Entries(files, names)[i] == e;
      assert names[i] in names;
    }
  }

  // ---- what is where ----

  lemma SixRenderings(s: Submission)
    ensures Renderings(s).Keys == {"report.md", "report.json", "transcript.txt", "timeline.jsonl", "state-diff.patch", "scenario-manifest.json"}
    ensures Renderings(s)["report.md"] == s.markdown && Renderings(s)["report.json"] == s.report
    ensures Renderings(s)["transcript.txt"] == s.transcript && Renderings(s)["timeline.jsonl"] == s.timeline
    ensures Renderings(s)["state-diff.patch"] == s.diff && Renderings(s)["scenario-manifest.json"] == s.scenario
  {
    NamesApart();
  }

  /** A bundle holds each rendering under its name, and beside them the manifest and its signature; the
      manifest has the hash of each, the last hash of the chain and the other fields as they were given. */
  lemma BundledExact(C: Codec, s: Submission)
    requires C.Sane()
    ensures var files := Bundled(C, s);
            && files.Keys == {"report.md", "report.json", "transcript.txt", "timeline.jsonl", "state-diff.patch", "scenario-manifest.json",
                              "manifest.json", "manifest.sig"}
            && files["report.md"] == s.markdown && files["report.json"] == s.report
            && files["transcript.txt"] == s.transcript && files["timeline.jsonl"] == s.timeline
            && files["state-diff.patch"] == s.diff && files["scenario-manifest.json"] == s.scenario
    ensures var m := Signed(C, s);
            && C.decodeManifest(Bundled(C, s)["manifest.json"]) == Just(m)
            && m.files.Keys == {"report.md", "report.json", "transcript.txt", "timeline.jsonl", "state-diff.patch", "scenario-manifest.json"}
            && (forall n | n in m.files :: m.files[n] == C.sha(Bundled(C, s)[n]))
            && m == s.manifest.(files := m.files, chainHead := m.chainHead)
            && m.chainHead == if s.hashes == [] then s.manifest.chainHead else s.hashes[|s.hashes| - 1]
  {
    hide Renderings, Hashes, Codec.Sane, SafeName;
    SixRenderings(s);
    RenderingNames(s);
    var m := Signed(C, s);
    SaneManifest(C, m);
    HashedAll(C, Renderings(s));
    TwoMore(Renderings(s), MANIFEST, C.encodeManifest(m), SIGNATURE, C.encodeSignature(C.sign(m)));
  }

  lemma HashedAll(C: Codec, files: map<string, Data>)
    ensures Hashes(C, files).Keys == files.Keys && forall n | n in files :: Hashes(C, files)[n] == C.sha(files[n])
  {}
}
