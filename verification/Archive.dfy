/** Scenario archives (internal/scenario/archive.go and loader.go): the writer, and
    the reader that undoes it. */
module Archive {
  import opened Text
  import opened PackagePaths
  import opened Zip
  import opened Options

  const MAX_FILES := 10000
  const MAX_BYTES := 67_108_864
  const DOCUMENT := "scenario.yaml"

  type Files = map<string, Data>

  datatype Error = NoFiles | TooManyFiles | UnsafePath | DuplicatePath | TooLarge | SymlinkEntry | Unreadable | NoDocument

  datatype Loaded = Ok(files: Files) | Err(error: Error)
  datatype Written = Done(entries: seq<Entry>) | Failed(error: Error)

  // ---- sizes ----

  /** Bytes of some files. */
  ghost function SizeOf(files: Files, keys: set<string>): nat
    requires keys <= files.Keys
    decreases |keys|
  {
    if keys == {} then 0
    else
      var k :| k in keys;
      |files[k]| + SizeOf(files, keys - {k})
  }

  lemma {:induction false} SizeFirst(files: Files, keys: set<string>, k: string)
    requires keys <= files.Keys && k in keys
    ensures SizeOf(files, keys) == |files[k]| + SizeOf(files, keys - {k})
    decreases |keys|
  {
    var j :| j in keys && SizeOf(files, keys) == |files[j]| + SizeOf(files, keys - {j});
    if j != k {
      SizeFirst(files, keys - {j}, k);
      SizeFirst(files, keys - {k}, j);
      assert keys - {j} - {k} == keys - {k} - {j};
    }
  }

  lemma SizeLast(files: Files, todo: set<string>, k: string)
    requires todo <= files.Keys && k in todo
    ensures SizeOf(files, files.Keys - (todo - {k})) == SizeOf(files, files.Keys - todo) + |files[k]|
  {
    var done := files.Keys - (todo - {k});
    SizeFirst(files, done, k);
    assert done - {k} == files.Keys - todo;
  }

  lemma {:induction false} SizeMonotone(files: Files, a: set<string>, b: set<string>)
    requires a <= b <= files.Keys
    ensures SizeOf(files, a) <= SizeOf(files, b)
    decreases |b|
  {
    if a != b {
      var k :| k in b && k !in a;
      SizeFirst(files, b, k);
      SizeMonotone(files, a, b - {k});
    }
  }

  // ---- the writer ----

  function PathOf(key: string): string { if SafePackagePath(key).Safe? then SafePackagePath(key).path else "" }

  ghost predicate Distinct(files: Files) {
    forall j, k | j in files && k in files && PathOf(j) == PathOf(k) :: j == k
  }

  /** What WriteArchive accepts. */
  ghost predicate Writable(files: Files) {
    && 0 < |files| <= MAX_FILES && (forall k | k in files :: SafePackagePath(k).Safe?)
    && Distinct(files) && SizeOf(files, files.Keys) <= MAX_BYTES
  }

  /** The files under their cleaned names. */
  ghost function Normalized(files: Files): Files
    requires Distinct(files)
  {
    map k | k in files :: PathOf(k) := files[k]
  }

  lemma NormalizedAt(files: Files)
    requires Distinct(files)
    ensures forall k | k in files :: PathOf(k) in Normalized(files) && Normalized(files)[PathOf(k)] == files[k]
    ensures forall p | p in Normalized(files) :: exists k | k in files :: PathOf(k) == p
  {
    hide PathOf;
  }

  function Entries(files: Files, names: seq<string>): seq<Entry>
    requires forall n | n in names :: n in files
  {
    seq(|names|, i requires 0 <= i < |names| => FileEntry(names[i], files[names[i]]))
  }

  lemma SizeNone(files: Files, names: set<string>)
    requires names == {}
    ensures SizeOf(files, names) == 0
  {}

  /** The loop of WriteArchive over the files. */
  method Collect(files: Files) returns (normalized: Files, error: Option<Error>)
    ensures error == Nothing <==> (forall k | k in files :: SafePackagePath(k).Safe?) && Distinct(files)
                                  && SizeOf(files, files.Keys) <= MAX_BYTES
    ensures error == Nothing ==> normalized == Normalized(files)
  {
    hide SafePackagePath, SizeOf;
    normalized := map[];
    var total := 0;
    var todo := files.Keys;
    SizeNone(files, files.Keys - todo);
    while todo != {}
      invariant todo <= files.Keys && total == SizeOf(files, files.Keys - todo) <= MAX_BYTES
      invariant forall k | k in files && k !in todo :: SafePackagePath(k).Safe? && PathOf(k) in normalized && normalized[PathOf(k)] == files[k]
      invariant forall p | p in normalized :: exists k | k in files :: k !in todo && PathOf(k) == p
      invariant forall j, k | j in files && k in files && j !in todo && k !in todo && PathOf(j) == PathOf(k) :: j == k
      decreases todo
    {
      var key :| key in todo;
      var data := files[key];
      SizeLast(files, todo, key);
      SizeMonotone(files, files.Keys - (todo - {key}), files.Keys);
      var safe := SafePackagePath(key);
      if safe.Unsafe? { return normalized, Just(UnsafePath); }
      assert PathOf(key) == safe.path;
      if safe.path in normalized { return normalized, Just(DuplicatePath); }
      if |data| > MAX_BYTES || total + |data| > MAX_BYTES { return normalized, Just(TooLarge); }
      total := total + |data|;
      normalized := normalized[safe.path := data];
      todo := todo - {key};
    }
    assert files.Keys - {} == files.Keys;
    error := Nothing;
  }

  method Emit(files: Files) returns (entries: seq<Entry>)
    ensures entries == Entries(files, Sorted(files.Keys))
  {
    hide StrictlySorted, FileEntry;
    var keys := Sorted(files.Keys);
    entries := [];
    for i := 0 to |keys|
      invariant |entries| == i && forall k | 0 <= k < i :: entries[k] == FileEntry(keys[k], files[keys[k]])
    {
      assert keys[i] in keys;
      entries := entries + [FileEntry(keys[i], files[keys[i]])];
    }
  }

  /** WriteArchive writes exactly the writable packages, in name order. */
  method WriteArchive(files: Files) returns (r: Written)
    ensures r.Done? <==> Writable(files)
    ensures r.Done? ==> r.entries == Entries(Normalized(files), Sorted(Normalized(files).Keys))
  {
    hide SafePackagePath, Distinct, Normalized, SizeOf, Entries;
    if |files| == 0 { return Failed(NoFiles); }
    if |files| > MAX_FILES { return Failed(TooManyFiles); }
    var normalized, error := Collect(files);
    if error.Just? { return Failed(error.value); }
    var entries := Emit(normalized);
    r := Done(entries);
  }

  // ---- the reader ----

  /** One entry of the loader's loop, on the files and bytes so far. */
  function Load(files: Files, total: nat, e: Entry): (r: Loaded) {
    var key := SafePackagePath(e.name);
    if key.Unsafe? then Err(UnsafePath)
    else if key.path in files then Err(DuplicatePath)
    else if e.symlink then Err(SymlinkEntry)
    else if e.directory then Ok(files)
    else if |files| >= MAX_FILES then Err(TooManyFiles)
    else if e.declared > MAX_BYTES || total + e.declared > MAX_BYTES then Err(TooLarge)
    else if e.content.Nothing? then Err(Unreadable)
    else if |e.content.value| > MAX_BYTES then Err(TooLarge)
    else Ok(files[key.path := e.content.value])
  }

  function Taken(e: Entry): nat { if !e.directory && e.content.Just? then |e.content.value| else 0 }

  function LoadFrom(entries: seq<Entry>, files: Files, total: nat): Loaded
    decreases |entries|
  {
    if entries == [] then
      if DOCUMENT in files then Ok(files) else Err(NoDocument)
    else
      match Load(files, total, entries[0])
      case Err(e) => Err(e)
      case Ok(more) => LoadFrom(entries[1..], more, total + Taken(entries[0]))
  }

  /** loadArchive, as far as the files go. */
  method LoadArchive(entries: seq<Entry>) returns (r: Loaded)
    ensures r == LoadFrom(entries, map[], 0)
  {
    hide SafePackagePath;
    var files: Files := map[];
    var total: nat := 0;
    for i := 0 to |entries|
      invariant LoadFrom(entries[i..], files, total) == LoadFrom(entries, map[], 0)
    {
      var entry := entries[i];
      assert entries[i..][0] == entry && entries[i..][1..] == entries[i + 1..];
      var key := SafePackagePath(entry.name);
      if key.Unsafe? { return Err(UnsafePath); }
      if key.path in files { return Err(DuplicatePath); }
      if entry.symlink { return Err(SymlinkEntry); }
      if entry.directory { continue; }
      if |files| >= MAX_FILES { return Err(TooManyFiles); }
      if entry.declared > MAX_BYTES || total + entry.declared > MAX_BYTES { return Err(TooLarge); }
      if entry.content.Nothing? { return Err(Unreadable); }
      var data := entry.content.value;
      if |data| > MAX_BYTES { return Err(TooLarge); }
      total := total + |data|;
      files := files[key.path := data];
    }
    assert entries[|entries|..] == [];
    if DOCUMENT !in files { return Err(NoDocument); }
    r := Ok(files);
  }

  /** The entry that a loaded file came from. */
  ghost predicate Source(entries: seq<Entry>, p: string, d: Data, i: nat) {
    && i < |entries| && !entries[i].directory && !entries[i].symlink
    && SafePackagePath(entries[i].name) == Safe(p) && entries[i].content == Just(d)
  }

  ghost predicate Extends(files: Files, after: Files) { forall p | p in files :: p in after && after[p] == files[p] }

  /** Each new file comes from an entry. */
  ghost predicate FromEntries(entries: seq<Entry>, files: Files, after: Files) {
    forall p | p in after && p !in files :: exists i: nat :: Source(entries, p, after[p], i)
  }

  /** Entry `i` is in the files, under its cleaned name, which was free before. */
  ghost predicate InFiles(entries: seq<Entry>, files: Files, after: Files, i: nat)
    requires i < |entries|
  {
    var p := PathOf(entries[i].name);
    p !in files && p in after && Source(entries, p, after[p], i)
  }

  ghost predicate AllLoaded(entries: seq<Entry>, files: Files, after: Files) {
    forall i: nat | i < |entries| && !entries[i].directory :: InFiles(entries, files, after, i)
  }

  lemma SourceNext(entries: seq<Entry>, p: string, d: Data, i: nat)
    requires entries != [] && Source(entries[1..], p, d, i)
    ensures Source(entries, p, d, i + 1)
  {}

  lemma LoadStep(entries: seq<Entry>, files: Files, total: nat, after: Files)
    requires entries != [] && Load(files, total, entries[0]).Ok?
    requires var more := Load(files, total, entries[0]).files;
             Extends(more, after) && FromEntries(entries[1..], more, after) && AllLoaded(entries[1..], more, after)
    ensures Extends(files, after) && FromEntries(entries, files, after) && AllLoaded(entries, files, after)
  {
    hide SafePackagePath;
    var more := Load(files, total, entries[0]).files;
    forall p | p in after && p !in files
      ensures exists i: nat :: Source(entries, p, after[p], i)
    {
      if p in more {
        assert Source(entries, p, after[p], 0);
      } else {
        var i: nat :| Source(entries[1..], p, after[p], i);
        SourceNext(entries, p, after[p], i);
      }
    }
    forall i: nat | i < |entries| && !entries[i].directory
      ensures InFiles(entries, files, after, i)
    {
      if i > 0 {
        assert entries[1..][i - 1] == entries[i];
        assert InFiles(entries[1..], more, after, i - 1);
      }
    }
  }

  /** What is loaded is what the entries hold: each file comes from an entry, and each
      file entry is loaded, with its content, under a cleaned name of its own. */
  lemma {:induction false} LoadedFiles(entries: seq<Entry>, files: Files, total: nat)
    requires LoadFrom(entries, files, total).Ok?
    ensures var after := LoadFrom(entries, files, total).files;
            Extends(files, after) && FromEntries(entries, files, after) && AllLoaded(entries, files, after)
    decreases |entries|
  {
    hide SafePackagePath, Load, Extends, FromEntries, AllLoaded;
    if entries != [] {
      LoadedFiles(entries[1..], Load(files, total, entries[0]).files, total + Taken(entries[0]));
      LoadStep(entries, files, total, LoadFrom(entries, files, total).files);
    } else {
      NothingLoaded(files);
    }
  }

  lemma NothingLoaded(files: Files)
    ensures Extends(files, files) && FromEntries([], files, files) && AllLoaded([], files, files)
  {}

  // ---- what the reader accepts ----

  predicate IsFile(e: Entry) { !e.directory }

  /** The files among some entries, and their bytes. */
  function CountOf(entries: seq<Entry>): nat {
    if entries == [] then 0 else CountOf(entries[..|entries| - 1]) + if IsFile(entries[|entries| - 1]) then 1 else 0
  }

  function BytesOf(entries: seq<Entry>): nat {
    if entries == [] then 0
    else
      var e := entries[|entries| - 1];
      BytesOf(entries[..|entries| - 1]) + if IsFile(e) && e.content.Just? then |e.content.value| else 0
  }

  ghost predicate FileAt(entries: seq<Entry>, p: string, j: nat) {
    j < |entries| && IsFile(entries[j]) && SafePackagePath(entries[j].name) == Safe(p)
  }

  /** Entry `i` is taken: a safe name that no file before it has, no link, and within every limit. */
  ghost predicate Fits(entries: seq<Entry>, i: nat)
    requires i < |entries|
  {
    var e := entries[i];
    && SafePackagePath(e.name).Safe? && !e.symlink
    && (forall j: nat | j < i :: !FileAt(entries, SafePackagePath(e.name).path, j))
    && (IsFile(e) ==>
          && CountOf(entries[..i]) < 10000 && e.declared <= 67_108_864 && BytesOf(entries[..i]) + e.declared <= 67_108_864
          && e.content.Just? && |e.content.value| <= 67_108_864)
  }

  /** What the loop has after the entries before the `i`-th. */
  ghost predicate HasRead(entries: seq<Entry>, i: nat, files: Files, total: nat)
    requires i <= |entries|
  {
    && (forall p :: p in files <==> exists j: nat | j < i :: FileAt(entries, p, j))
    && |files| == CountOf(entries[..i]) && total == BytesOf(entries[..i])
  }

  lemma FitsIsLoaded(entries: seq<Entry>, i: nat, files: Files, total: nat)
    requires i < |entries| && HasRead(entries, i, files, total)
    ensures Load(files, total, entries[i]).Ok? <==> Fits(entries, i)
  {
    hide SafePackagePath, CountOf, BytesOf, FileAt;
  }

  lemma MoreFiles(files: Files, p: string, d: Data)
    requires p !in files
    ensures |files[p := d]| == |files| + 1
  {
    assert files[p := d].Keys == files.Keys + {p};
  }

  lemma ReadOn(entries: seq<Entry>, i: nat, files: Files, total: nat)
    requires i < |entries| && HasRead(entries, i, files, total) && Load(files, total, entries[i]).Ok?
    ensures HasRead(entries, i + 1, Load(files, total, entries[i]).files, total + Taken(entries[i]))
  {
    hide SafePackagePath;
    assert entries[..i + 1][..i] == entries[..i];
    var e := entries[i];
    var more := Load(files, total, e).files;
    var p := SafePackagePath(e.name).path;
    if IsFile(e) { MoreFiles(files, p, e.content.value); }
    forall q ensures q in more <==> exists j: nat | j < i + 1 :: FileAt(entries, q, j) {
      if q in files {
        var j: nat :| j < i && FileAt(entries, q, j);
        assert j < i + 1;
      }
      if IsFile(e) && q == p { assert FileAt(entries, q, i); }
    }
  }

  lemma {:induction false} LoadsExactly(entries: seq<Entry>, i: nat, files: Files, total: nat)
    requires i <= |entries| && HasRead(entries, i, files, total)
    ensures LoadFrom(entries[i..], files, total).Ok? <==>
              && (forall k: nat | i <= k < |entries| :: Fits(entries, k))
              && exists j: nat :: FileAt(entries, "scenario.yaml", j)
    decreases |entries| - i
  {
    hide SafePackagePath, Load, Fits, FileAt, HasRead;
    if i == |entries| {
      assert entries[i..] == [];
      AllRead(entries, files, total);
    } else {
      assert entries[i..][0] == entries[i] && entries[i..][1..] == entries[i + 1..];
      FitsIsLoaded(entries, i, files, total);
      if Fits(entries, i) {
        ReadOn(entries, i, files, total);
        LoadsExactly(entries, i + 1, Load(files, total, entries[i]).files, total + Taken(entries[i]));
      }
    }
  }

  lemma AllRead(entries: seq<Entry>, files: Files, total: nat)
    requires HasRead(entries, |entries|, files, total)
    ensures DOCUMENT in files <==> exists j: nat :: FileAt(entries, "scenario.yaml", j)
  {
    hide SafePackagePath;
    if j: nat :| FileAt(entries, "scenario.yaml", j) { assert j < |entries|; }
  }

  /** An archive is loaded exactly if every entry has a safe name that no file before it has, none is a
      link, the files can be read and are within the limits, and one of them is the scenario document. */
  lemma LoadExact(entries: seq<Entry>)
    ensures LoadFrom(entries, map[], 0).Ok? <==>
              && (forall k: nat | k < |entries| :: Fits(entries, k))
              && exists j: nat :: FileAt(entries, "scenario.yaml", j)
  {
    hide SafePackagePath, Fits, FileAt;
    assert entries[0..] == entries && entries[..0] == [];
    LoadsExactly(entries, 0, map[], 0);
  }

  // ---- the reader undoes the writer ----

  /** Names and contents of the entries behind the `i`-th, on top of what came before. */
  lemma {:induction false} LoadsEntries(files: Files, names: seq<string>, i: nat)
    requires StrictlySorted(names) && (forall n | n in names :: n in files && SafePackagePath(n) == Safe(n))
    requires |names| <= MAX_FILES && i <= |names| && SumOf(files, names) <= MAX_BYTES
    ensures LoadFrom(Entries(files, names)[i..], Front(files, names, i), SumOf(files, names[..i]))
         == if DOCUMENT in names then Ok(Front(files, names, |names|)) else Err(NoDocument)
    decreases |names| - i
  {
    hide SafePackagePath, DOCUMENT, Load, Front, SumOf, StrictlySorted;
    var entries := Entries(files, names);
    if i == |names| {
      assert entries[i..] == [];
      FrontAll(files, names);
    } else {
      assert entries[i..][0] == entries[i] && entries[i..][1..] == entries[i + 1..];
      LoadsOne(files, names, i);
      LoadsEntries(files, names, i + 1);
    }
  }

  lemma FrontAll(files: Files, names: seq<string>)
    requires forall n | n in names :: n in files
    ensures forall n :: n in Front(files, names, |names|) <==> n in names
    ensures Front(files, names, 0) == map[]
  {
    assert names[..|names|] == names;
  }

  lemma LoadsOne(files: Files, names: seq<string>, i: nat)
    requires StrictlySorted(names) && (forall n | n in names :: n in files && SafePackagePath(n) == Safe(n))
    requires |names| <= MAX_FILES && i < |names| && SumOf(files, names) <= MAX_BYTES
    ensures var e := Entries(files, names)[i];
            && Load(Front(files, names, i), SumOf(files, names[..i]), e) == Ok(Front(files, names, i + 1))
            && SumOf(files, names[..i + 1]) == SumOf(files, names[..i]) + Taken(e)
  {
    hide SafePackagePath, Front, SumOf, StrictlySorted;
    assert names[i] in names;
    NotInFront(files, names, i);
    FrontNext(files, names, i);
    SumNext(files, names, i);
    SumMonotone(files, names, i + 1);
  }

  /** The first `i` files. */
  function Front(files: Files, names: seq<string>, i: nat): Files
    requires i <= |names| && forall n | n in names :: n in files
  {
    map n | n in names[..i] :: files[n]
  }

  function SumOf(files: Files, names: seq<string>): nat {
    if names == [] then 0
    else SumOf(files, names[..|names| - 1]) + (var n := names[|names| - 1]; if n in files then |files[n]| else 0)
  }

  lemma NotInFront(files: Files, names: seq<string>, i: nat)
    requires StrictlySorted(names) && i < |names| && forall n | n in names :: n in files
    ensures names[i] !in Front(files, names, i) && |Front(files, names, i)| <= i
  {
    LessIrreflexive(names[i]);
    CountFront(files, names, i);
  }

  lemma {:induction false} CountFront(files: Files, names: seq<string>, i: nat)
    requires i <= |names| && forall n | n in names :: n in files
    ensures |Front(files, names, i)| <= i
    decreases i
  {
    if i == 0 {
      assert Front(files, names, 0) == map[];
    } else {
      hide Front;
      CountFront(files, names, i - 1);
      FrontNext(files, names, i - 1);
      AtMostOneMore(Front(files, names, i - 1), names[i - 1], files[names[i - 1]]);
    }
  }

  lemma AtMostOneMore<V>(m: map<string, V>, k: string, v: V)
    ensures |m[k := v]| <= |m| + 1
  {
    assert m[k := v].Keys == m.Keys + {k};
  }

  lemma FrontNext(files: Files, names: seq<string>, i: nat)
    requires i < |names| && forall n | n in names :: n in files
    ensures names[i] in names && Front(files, names, i + 1) == Front(files, names, i)[names[i] := files[names[i]]]
  {
    assert names[..i + 1] == names[..i] + [names[i]];
    assert names[i] in names;
  }

  lemma SumNext(files: Files, names: seq<string>, i: nat)
    requires i < |names| && names[i] in files
    ensures SumOf(files, names[..i + 1]) == SumOf(files, names[..i]) + |files[names[i]]|
  {
    assert names[..i + 1][..i] == names[..i];
  }

  lemma {:induction false} SumMonotone(files: Files, names: seq<string>, i: nat)
    requires i <= |names| && forall n | n in names :: n in files
    ensures SumOf(files, names[..i]) <= SumOf(files, names)
    decreases |names| - i
  {
    if i < |names| {
      assert names[i] in names;
      SumNext(files, names, i);
      SumMonotone(files, names, i + 1);
    } else {
      assert names[..i] == names;
    }
  }

  lemma {:induction false} SumIsSize(files: Files, names: seq<string>, keys: set<string>)
    requires StrictlySorted(names) && keys <= files.Keys && forall n :: n in names <==> n in keys
    ensures SumOf(files, names) == SizeOf(files, keys)
    decreases |names|
  {
    if names == [] {
      assert forall n :: n !in keys;
      assert keys == {};
    } else {
      var init, last := names[..|names| - 1], names[|names| - 1];
      assert last in names;
      forall n ensures n in init <==> n in keys - {last} {
        LessIrreflexive(last);
        if n in names && n != last { assert n in init by { var i :| 0 <= i < |names| && names[i] == n; assert init[i] == n; } }
        if n in init { assert n in names; }
      }
      SizeFirst(files, keys, last);
      SumIsSize(files, init, keys - {last});
    }
  }

  function Paths(keys: set<string>): set<string> { set k | k in keys :: PathOf(k) }

  lemma PathsStep(files: Files, keys: set<string>, k: string)
    requires Distinct(files) && keys <= files.Keys && k in keys
    ensures PathOf(k) in Paths(keys) && Paths(keys) - {PathOf(k)} == Paths(keys - {k})
  {
    hide PathOf;
    forall p ensures p in Paths(keys) - {PathOf(k)} <==> p in Paths(keys - {k}) {
      if p in Paths(keys) && p != PathOf(k) {
        var j :| j in keys && PathOf(j) == p;
        assert j in keys - {k};
      }
    }
  }

  lemma PathsKeys(files: Files)
    requires Distinct(files)
    ensures Paths(files.Keys) == Normalized(files).Keys
  {
    hide PathOf;
  }

  /** Renaming the keys one to one keeps the size. */
  lemma {:induction false} NormalizedSize(files: Files, keys: set<string>)
    requires Distinct(files) && keys <= files.Keys
    ensures Paths(keys) <= Normalized(files).Keys && |Paths(keys)| == |keys|
    ensures SizeOf(Normalized(files), Paths(keys)) == SizeOf(files, keys)
    decreases |keys|
  {
    hide PathOf, Normalized, Distinct, Paths;
    NormalizedAt(files);
    if keys == {} {
      assert Paths({}) == {} by { NoPaths(); }
    } else {
      var k :| k in keys;
      PathsStep(files, keys, k);
      NormalizedSize(files, keys - {k});
      SizeFirst(files, keys, k);
      assert Paths(keys) == Paths(keys - {k}) + {PathOf(k)};
      SizeFirst(Normalized(files), Paths(keys), PathOf(k));
    }
  }

  lemma NoPaths()
    ensures Paths({}) == {}
  {}

  /** Files under clean names, within the limits, are read back from their sorted entries. */
  lemma LoadsSorted(files: Files)
    requires |files| <= MAX_FILES && SizeOf(files, files.Keys) <= MAX_BYTES
    requires forall k | k in files :: SafePackagePath(k) == Safe(k)
    ensures LoadFrom(Entries(files, Sorted(files.Keys)), map[], 0) == if DOCUMENT in files then Ok(files) else Err(NoDocument)
  {
    hide SafePackagePath, DOCUMENT, LoadFrom, SizeOf, StrictlySorted, SumOf, Front;
    var names := Sorted(files.Keys);
    SumIsSize(files, names, files.Keys);
    LoadsEntries(files, names, 0);
    FrontAll(files, names);
    FrontIsAll(files, names);
    assert Entries(files, names)[0..] == Entries(files, names) && names[..0] == [];
    NoSum(files);
  }

  lemma NoSum(files: Files)
    ensures SumOf(files, []) == 0
  {}

  lemma FrontIsAll(files: Files, names: seq<string>)
    requires forall n :: n in names <==> n in files
    ensures Front(files, names, |names|) == files
  {
    assert names[..|names|] == names;
  }

  /** An archive that was written loads, with the normalised files, exactly when one of
      them is the scenario document: the limits of writer and reader coincide. */
  lemma ReaderUndoesWriter(files: Files)
    requires Writable(files)
    ensures var n := Normalized(files);
            LoadFrom(Entries(n, Sorted(n.Keys)), map[], 0) == if DOCUMENT in n then Ok(n) else Err(NoDocument)
  {
    hide SafePackagePath, DOCUMENT, Normalized, Distinct, Paths, LoadFrom, Entries, SizeOf;
    PathsKeys(files);
    NormalizedSize(files, files.Keys);
    NormalizedStable(files);
    LoadsSorted(Normalized(files));
  }

  lemma NormalizedStable(files: Files)
    requires Writable(files)
    ensures forall p | p in Normalized(files) :: SafePackagePath(p) == Safe(p)
  {
    hide SafePackagePath, Normalized;
    NormalizedAt(files);
    forall p | p in Normalized(files) ensures SafePackagePath(p) == Safe(p) {
      var k :| k in files && PathOf(k) == p;
      SafePathStable(k);
    }
  }

  lemma FixedNames(files: Files)
    requires Distinct(files) && forall k | k in files :: PathOf(k) == k
    ensures Normalized(files) == files
  {
    NormalizedAt(files);
    hide PathOf, Normalized;
    var n := Normalized(files);
    forall k ensures k in n <==> k in files {
      if k in n { assert exists j | j in files :: PathOf(j) == k; }
    }
  }

  /** The files come back under their own names exactly when every name is clean. */
  lemma NormalizedIsIdentity(files: Files)
    requires Writable(files)
    ensures Normalized(files) == files <==> forall k | k in files :: SafeName(k)
  {
    var n := Normalized(files);
    NormalizedAt(files);
    NormalizedStable(files);
    hide SafePackagePath, SafeName, Normalized, Distinct;
    forall k | k in files ensures PathOf(k) == k <==> SafeName(k) { SafePathFixed(k); }
    if forall k | k in files :: PathOf(k) == k { FixedNames(files); }
    if n == files {
      forall k | k in files ensures PathOf(k) == k { assert k in n; }
    }
  }
}
