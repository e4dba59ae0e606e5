/** NewState (internal/system/state.go): the machine that a scenario package is made into. The
    objects and the snapshot are those of VirtualMachine.NewState. */
module Boot {
  import opened Text
  import opened Options
  import opened Paths
  import opened Host
  import opened FileTree
  import PackagePaths
  import FileTheorems
  import Interpreter
  import Services
  import M = Machine

  datatype UserSpec = UserSpec(name: string, uid: int, gid: int, groups: seq<string>, shell: string)

  datatype EntrySpec = EntrySpec(path: string, content: string, owner: string, group: string, mode: string, selinuxType: string)

  datatype PackageSpec = PackageSpec(name: string, version: string)

  datatype ZoneSpec = ZoneSpec(interfaces: seq<string>, services: seq<string>, ports: seq<string>)

  /** The parts of scenario.ScenarioSpec that NewState reads. */
  datatype Scenario = Scenario(
    hostname: string,
    selinux: string,
    users: seq<UserSpec>,
    initialUser: string,
    entries: seq<EntrySpec>,
    services: seq<Service>,
    packages: seq<PackageSpec>,
    zones: map<string, ZoneSpec>,
    addresses: seq<string>,
    dns: map<string, string>)

  datatype BootError = UndefinedUser | BadPath | BadMode

  datatype Result<T> = Made(value: T) | Refused(error: BootError)

  // ---- placing files over a tree ----

  /** `k` lies on the way to `p`, between the root and `p` itself. */
  predicate Above(k: string, p: string) { Under(k, p) && k != p && k != "/" }

  ghost predicate OnTheWay(placed: Files, k: string) { exists p | p in placed :: Above(k, p) }

  /** The base with files placed over it, and the missing directories on their ways. */
  ghost predicate Overlay(base: Files, placed: Files, r: Files) {
    && (forall k :: k in r <==> k in base || k in placed || (Canonical(k) && OnTheWay(placed, k)))
    && (forall k | k in r :: r[k] == if k in placed then placed[k] else if k in base then base[k] else RootDirectory(k))
  }

  /** Placed files have canonical names, which they hold, and are no directories. */
  ghost predicate Regular(placed: Files) {
    forall p | p in placed :: Canonical(p) && placed[p].path == p && !placed[p].directory
  }

  lemma NothingPlaced(base: Files)
    ensures Overlay(base, map[], base)
  {}

  lemma {:induction false} OtherKeysStay(files: Files, p: string, k: string)
    requires Canonical(p) && !Canonical(k)
    ensures k in EnsureParents(files, p) <==> k in files
    ensures k in files ==> EnsureParents(files, p)[k] == files[k]
    decreases |Parts(p)|
  {
    hide Canonical, Parts;
    ParentOf(p);
    var d := Dir(p);
    if d != "/" { OtherKeysStay(if d in files then files else files[d := RootDirectory(d)], d, k); }
  }

  /** Placing one more file, as the loops do it. */
  lemma PlaceOne(base: Files, placed: Files, r: Files, p: string, f: File)
    requires Regular(placed) && Overlay(base, placed, r) && Canonical(p)
    ensures Overlay(base, placed[p := f], EnsureParents(r, p)[p := f])
  {
    hide Canonical, Under, EnsureParents;
    var grown := EnsureParents(r, p);
    var more, after := placed[p := f], grown[p := f];
    forall k
      ensures k in after <==> k in base || k in more || (Canonical(k) && OnTheWay(more, k))
      ensures k in after ==> after[k] == if k in more then more[k] else if k in base then base[k] else RootDirectory(k)
    {
      OnTheWayMore(placed, p, f, k);
      if Canonical(k) { EnsureParentsMeaning(r, p, k); } else { OtherKeysStay(r, p, k); }
    }
  }

  lemma OnTheWayMore(placed: Files, p: string, f: File, k: string)
    ensures OnTheWay(placed[p := f], k) <==> OnTheWay(placed, k) || Above(k, p)
  {
    hide Under;
    var more := placed[p := f];
    if OnTheWay(placed, k) {
      var q :| q in placed && Above(k, q);
      assert q in more;
    }
    if Above(k, p) { assert p in more; }
  }

  /** The result does not depend on the order in which the files were placed. */
  lemma OverlayUnique(base: Files, placed: Files, r: Files, s: Files)
    requires Overlay(base, placed, r) && Overlay(base, placed, s)
    ensures r == s
  {
    hide Canonical, Above, OnTheWay;
    assert r.Keys == s.Keys;
  }

  /** There is room for the file: nothing of the base and no placed file is below it, and what
      the base has on its way are directories. */
  ghost predicate Room(base: Files, placed: Files, p: string) {
    && p != "/"
    && (forall k | k in base && Under(p, k) :: k == p)
    && (forall k | k in base && Above(k, p) :: base[k].directory)
    && (forall q | q in placed && Under(p, q) :: q == p)
  }

  ghost predicate RoomForAll(base: Files, placed: Files) { forall p | p in placed :: Room(base, placed, p) }

  lemma TreeNeedsRoom(base: Files, placed: Files, r: Files, p: string)
    requires Regular(placed) && Overlay(base, placed, r) && TreeInv(r) && p in placed
    ensures Room(base, placed, p)
  {
    hide Canonical, Under, TreeInv;
    RootPresent(r);
    TreeKeys(r);
    forall k | k in r && Under(p, k) ensures k == p { AncestorsPresent(r, k, p); }
    forall k | k in base && Above(k, p) ensures base[k].directory {
      AncestorsPresent(r, p, k);
    }
  }

  /** No placed file is on the way to another. */
  lemma NoneOnTheWay(base: Files, placed: Files, p: string, d: string)
    requires RoomForAll(base, placed) && p in placed && Under(d, p) && d != p
    ensures d !in placed
  {
    hide Under;
    if d in placed { RoomBelow(base, placed, d, p); }
  }

  lemma RoomBelow(base: Files, placed: Files, d: string, p: string)
    requires RoomForAll(base, placed) && p in placed && d in placed && Under(d, p)
    ensures d == p
  {
    assert Room(base, placed, d);
  }

  /** Paths below one another are the same. */
  lemma UnderBack(a: string, b: string)
    requires Canonical(a) && Canonical(b) && Under(a, b) && a != "/"
    ensures Dir(a) != b
  {
    hide Canonical, Under, Parts, Dir;
    ParentOf(a);
    UnderParts(a, b);
  }

  /** The directory above a placed or created entry. */
  lemma ParentOnTheWay(base: Files, placed: Files, r: Files, p: string, k: string)
    requires TreeInv(base) && Regular(placed) && Overlay(base, placed, r) && RoomForAll(base, placed)
    requires p in placed && Canonical(k) && Under(k, p) && k != "/"
    ensures Dir(k) in r && r[Dir(k)].directory
  {
    hide Canonical, TreeInv, Under, Dir;
    var d := Dir(k);
    ParentOf(k);
    RootPresent(base);
    UnderTransitive(d, k, p);
    UnderBack(k, p);
    assert Room(base, placed, p);
    NoneOnTheWay(base, placed, p, d);
    if d != "/" {
      assert Above(d, p);
      assert OnTheWay(placed, d);
    }
  }

  /** An entry of the base keeps its directory. */
  lemma ParentInBase(base: Files, placed: Files, r: Files, k: string)
    requires TreeInv(base) && Overlay(base, placed, r) && RoomForAll(base, placed) && k in base && k != "/"
    ensures Canonical(k) && base[k].path == k && Dir(k) in r && r[Dir(k)].directory
  {
    hide Canonical, TreeInv, Under, Dir;
    PlacedInTree(base, k);
    ParentOf(k);
    NotOverBase(base, placed, Dir(k), k);
  }

  lemma NotOverBase(base: Files, placed: Files, d: string, k: string)
    requires RoomForAll(base, placed) && k in base && Under(d, k) && d != k
    ensures d !in placed
  {
    if d in placed { RoomOver(base, placed, d, k); }
  }

  lemma RoomOver(base: Files, placed: Files, d: string, k: string)
    requires RoomForAll(base, placed) && d in placed && k in base && Under(d, k)
    ensures d == k
  {
    assert Room(base, placed, d);
  }

  lemma PlacedInTree(files: Files, k: string)
    requires TreeInv(files) && k in files
    ensures Canonical(k) && files[k].path == k && (k != "/" ==> Dir(k) in files && files[Dir(k)].directory)
  {
    assert Placed(files, k);
  }

  lemma EntryInPlace(base: Files, placed: Files, r: Files, k: string)
    requires TreeInv(base) && Regular(placed) && Overlay(base, placed, r) && RoomForAll(base, placed) && k in r
    ensures Placed(r, k)
  {
    hide Canonical, TreeInv, Under, Dir;
    if k in placed {
      assert Room(base, placed, k);
      FileTheorems.SelfUnder(k);
      ParentOnTheWay(base, placed, r, k, k);
    } else if k in base {
      PlacedInTree(base, k);
      if k != "/" { ParentInBase(base, placed, r, k); }
    } else {
      var p :| p in placed && Above(k, p);
      ParentOnTheWay(base, placed, r, p, k);
    }
  }

  /** Files placed over a tree leave a tree exactly if there is room for each of them. */
  lemma OverlayExact(base: Files, placed: Files, r: Files)
    requires TreeInv(base) && Regular(placed) && Overlay(base, placed, r)
    ensures TreeInv(r) <==> RoomForAll(base, placed)
  {
    hide Room, Canonical, Overlay;
    if TreeInv(r) {
      forall p | p in placed ensures Room(base, placed, p) { TreeNeedsRoom(base, placed, r, p); }
    }
    if RoomForAll(base, placed) {
      RootStays(base, placed, r);
      forall k | k in r ensures Placed(r, k) { EntryInPlace(base, placed, r, k); }
    }
  }

  lemma RootStays(base: Files, placed: Files, r: Files)
    requires TreeInv(base) && Overlay(base, placed, r) && RoomForAll(base, placed)
    ensures "/" in r && r["/"].directory
  {
    hide Canonical, TreeInv;
    RootPresent(base);
    assert "/" in placed ==> Room(base, placed, "/");
  }

  // ---- the files of the scenario ----

  predicate OctalDigit(c: char) { '0' <= c <= '7' }

  function OctalValue(digits: string): nat
    requires forall c | c in digits :: OctalDigit(c)
  {
    if digits == "" then 0
    else
      var c := digits[|digits| - 1];
      assert c in digits && OctalDigit(c);
      8 * OctalValue(digits[..|digits| - 1]) + (c as int - '0' as int)
  }

  /** strconv.ParseUint(digits, 8, 32). */
  function ParseUint(digits: string): Option<bv32> {
    if digits == "" || exists c | c in digits :: !OctalDigit(c) then Nothing
    else
      var n := OctalValue(digits);
      if n >= 0x1_0000_0000 then Nothing else Just(n as bv32)
  }

  function ParseMode(value: string, fallback: bv32): Option<bv32> {
    if value == "" then Just(fallback) else ParseUint(if "0o" <= value then value[2..] else value)
  }

  /** defaultString. */
  function OrElse(value: string, fallback: string): string { if value == "" then fallback else value }

  function EntryFile(e: EntrySpec): Result<File> {
    match NormalizePath(e.path, "/")
    case EmptyPath => Refused(BadPath)
    case Escapes => Refused(BadPath)
    case Ok(p) =>
      match ParseMode(e.mode, 0x1a4)
      case Nothing => Refused(BadMode)
      case Just(mode) => Made(File(p, e.content, OrElse(e.owner, "root"), OrElse(e.group, "root"), mode, e.selinuxType, false))
  }

  /** The entries by path, the last of a path counting; or the first error. */
  function EntryFiles(entries: seq<EntrySpec>): Result<Files> {
    if entries == [] then Made(map[])
    else
      match EntryFiles(entries[..|entries| - 1])
      case Refused(e) => Refused(e)
      case Made(files) =>
        match EntryFile(entries[|entries| - 1])
        case Refused(e) => Refused(e)
        case Made(f) => Made(files[f.path := f])
  }

  lemma EntriesNext(entries: seq<EntrySpec>, i: nat)
    requires i < |entries| && EntryFiles(entries[..i]).Made?
    ensures EntryFiles(entries[..i + 1]) ==
            match EntryFile(entries[i]) case Refused(e) => Refused(e) case Made(f) => Made(EntryFiles(entries[..i]).value[f.path := f])
  {
    assert entries[..i + 1][..i] == entries[..i];
  }

  lemma {:induction false} EntriesRefused(entries: seq<EntrySpec>, i: nat)
    requires i <= |entries| && EntryFiles(entries[..i]).Refused?
    ensures EntryFiles(entries) == EntryFiles(entries[..i])
    decreases |entries| - i
  {
    if i == |entries| {
      assert entries[..i] == entries;
    } else {
      assert entries[..i + 1][..i] == entries[..i];
      EntriesRefused(entries, i + 1);
    }
  }

  lemma EntryInPath(e: EntrySpec)
    requires EntryFile(e).Made?
    ensures Canonical(EntryFile(e).value.path) && !EntryFile(e).value.directory
  {
    hide ParseMode, Canonical;
    RootParts();
    if e.path != "" { NormalizeMeaning(e.path, "/"); }
  }

  lemma {:induction false} EntriesRegular(entries: seq<EntrySpec>)
    requires EntryFiles(entries).Made?
    ensures Regular(EntryFiles(entries).value)
  {
    hide EntryFile, Canonical;
    if entries != [] {
      EntriesRegular(entries[..|entries| - 1]);
      EntryInPath(entries[|entries| - 1]);
    }
  }

  /** The loop over the entries. */
  method PlaceEntries(base: Files, entries: seq<EntrySpec>) returns (files: Files, r: Result<Files>)
    ensures r == EntryFiles(entries)
    ensures r.Made? ==> Overlay(base, r.value, files)
  {
    hide EntryFile, EntryFiles, Overlay, Canonical, EnsureParents;
    files := base;
    r := Made(map[]);
    NothingPlaced(base);
    NoEntries(entries);
    for i := 0 to |entries|
      invariant r == EntryFiles(entries[..i]) && r.Made? && Overlay(base, r.value, files)
    {
      var entry := EntryFile(entries[i]);
      EntriesNext(entries, i);
      if entry.Refused? {
        EntriesRefused(entries, i + 1);
        return files, Refused(entry.error);
      }
      var p := entry.value.path;
      EntryInPath(entries[i]);
      EntriesRegular(entries[..i]);
      PlaceOne(base, r.value, files, p, entry.value);
      files := EnsureParents(files, p)[p := entry.value];
      r := Made(r.value[p := entry.value]);
    }
    assert entries[..|entries|] == entries;
  }

  lemma NoEntries(entries: seq<EntrySpec>)
    ensures EntryFiles(entries[..0]) == Made(map[])
  {}

  // ---- the files of the package ----

  const MOUNT := "files/"

  predicate Mounts(name: string) { MOUNT <= name && name != MOUNT }

  function Virtual(name: string): string
    requires MOUNT <= name
  {
    "/" + name[|MOUNT|..]
  }

  function PackageFile(name: string, content: string): File
    requires MOUNT <= name
  {
    File(Virtual(name), content, "root", "root", 0x1a4, "", false)
  }

  function Source(v: string): string
    requires v != ""
  {
    MOUNT + v[1..]
  }

  lemma SourceOfVirtual(name: string)
    requires MOUNT <= name
    ensures Virtual(name) != "" && Source(Virtual(name)) == name
  {
    assert name == MOUNT + name[|MOUNT|..] && Virtual(name)[1..] == name[|MOUNT|..];
  }

  function VirtualNames(names: set<string>): set<string> { set n | n in names && MOUNT <= n :: Virtual(n) }

  /** The named files of the package that no scenario entry has taken the place of. */
  function Mounted(package: map<string, string>, taken: set<string>, names: set<string>): Files {
    map v | v in VirtualNames(names) && v != "" && Source(v) in names && Source(v) in package && Mounts(Source(v)) && v !in taken ::
      PackageFile(Source(v), package[Source(v)])
  }

  /** One file more. */
  lemma MountOne(package: map<string, string>, taken: set<string>, names: set<string>, n: string)
    requires n in package && n !in names
    ensures Mounted(package, taken, names + {n}) ==
            if Mounts(n) && Virtual(n) !in taken then Mounted(package, taken, names)[Virtual(n) := PackageFile(n, package[n])]
            else Mounted(package, taken, names)
  {
    hide MOUNT, PackageFile, Virtual, Source;
    var before, after := Mounted(package, taken, names), Mounted(package, taken, names + {n});
    forall v ensures v in VirtualNames(names + {n}) <==> v in VirtualNames(names) || (MOUNT <= n && v == Virtual(n)) {
      if MOUNT <= n && v == Virtual(n) { assert n in names + {n}; }
    }
    if MOUNT <= n { SourceOfVirtual(n); }
    forall v | v in VirtualNames(names + {n}) ensures v != "" && Source(v) in names + {n} { VirtualSource(names + {n}, v); }
    forall v | v in VirtualNames(names) ensures v != "" && Source(v) in names { VirtualSource(names, v); }
    assert after.Keys == if Mounts(n) && Virtual(n) !in taken then before.Keys + {Virtual(n)} else before.Keys;
  }

  lemma VirtualSource(names: set<string>, v: string)
    requires v in VirtualNames(names)
    ensures v != "" && Source(v) in names && MOUNT <= Source(v) && Virtual(Source(v)) == v
  {
    var n :| n in names && MOUNT <= n && v == Virtual(n);
    SourceOfVirtual(n);
  }

  /** A safe name below `files/` is a canonical path of the host. */
  lemma VirtualCanonical(name: string)
    requires PackagePaths.SafeName(name) && Mounts(name)
    ensures Canonical(Virtual(name)) && Virtual(name) != "/"
  {
    hide ByteLen, Clean;
    PackagePaths.SafeNameExact(name);
    var cs :| PackagePaths.Spells(name, cs);
    FirstIsFiles(name, cs);
    var rest := cs[1..];
    assert cs == [cs[0]] + rest;
    RawConcat([cs[0]], rest);
    PartsRender(rest);
  }

  lemma SlashInside(a: string, b: string, whole: string)
    requires a + "/" <= whole && b <= whole && |a| < |b|
    ensures '/' in b
  {
    assert b[|a|] == whole[|a|] == (a + "/")[|a|];
  }

  /** The part before the first slash. */
  lemma FirstPart(name: string, c: string)
    requires '/' !in c && MOUNT <= name && (c == name || c + "/" <= name)
    ensures c == "files" && c != name
  {
    assert MOUNT == "files" + "/";
    if |c| > 5 { SlashInside("files", c, name); }
    if |c| < 5 { SlashInside(c, "files", name); }
    assert c == name[..5] == "files";
  }

  lemma RawOne(c: string)
    ensures Raw([c]) == "/" + c
  {
    assert [c][..0] == [];
  }

  lemma SpelledRaw(name: string, cs: seq<string>)
    requires PackagePaths.Spells(name, cs)
    ensures cs != [] && ValidParts(cs) && Raw(cs) == "/" + name
  {
    hide Raw, ValidPart;
    PackagePaths.RawFirst(cs);
    assert Raw(cs) == "/" + Raw(cs)[1..];
  }

  lemma Spelled(name: string, cs: seq<string>)
    requires PackagePaths.Spells(name, cs)
    ensures cs != [] && ValidParts(cs) && Raw(cs) == "/" + name && '/' !in cs[0]
    ensures if |cs| == 1 then cs[0] == name else cs[0] + "/" <= name
  {
    hide Raw, PackagePaths.Spells;
    SpelledRaw(name, cs);
    PackagePaths.RawFirst(cs);
    assert cs[0] in cs;
    FrontOf(cs[0], name, Raw(cs));
  }

  lemma FrontOf(c: string, name: string, raw: string)
    requires raw == "/" + name
    ensures raw == "/" + c ==> c == name
    ensures "/" + c + "/" <= raw ==> c + "/" <= name
  {
    assert name == raw[1..] && ("/" + c)[1..] == c && ("/" + c + "/")[1..] == c + "/";
  }

  lemma FirstIsFiles(name: string, cs: seq<string>)
    requires PackagePaths.Spells(name, cs) && Mounts(name)
    ensures |cs| > 1 && Raw([cs[0]]) == "/files" && Virtual(name) == Raw(cs[1..])
  {
    hide Raw, PackagePaths.Spells;
    Spelled(name, cs);
    var c, rest := cs[0], cs[1..];
    FirstPart(name, c);
    assert cs == [c] + rest;
    RawConcat([c], rest);
    RawOne(c);
    MountedName(name, Raw(rest));
  }

  lemma MountedName(name: string, rest: string)
    requires MOUNT <= name && "/" + name == "/files" + rest
    ensures Virtual(name) == rest
  {
    assert rest == ("/" + name)[6..] == name[5..];
    assert name[5] == '/';
  }

  lemma MountedRegular(package: map<string, string>, taken: set<string>, names: set<string>)
    requires forall n | n in package :: PackagePaths.SafeName(n)
    ensures Regular(Mounted(package, taken, names))
  {
    hide Canonical, PackagePaths.SafeName, MOUNT, Mounts;
    var files := Mounted(package, taken, names);
    forall v | v in files ensures Canonical(v) && files[v].path == v && !files[v].directory {
      VirtualSource(names, v);
      VirtualCanonical(Source(v));
    }
  }

  lemma RegularBoth(a: Files, b: Files)
    requires Regular(a) && Regular(b)
    ensures Regular(a + b)
  {
    hide Canonical;
  }

  /** The loop over the package's files, in any order. */
  method PlacePackage(base: Files, placed: Files, start: Files, package: map<string, string>) returns (files: Files)
    requires Regular(placed) && Overlay(base, placed, start) && forall n | n in package :: PackagePaths.SafeName(n)
    ensures Overlay(base, placed + Mounted(package, placed.Keys, package.Keys), files)
  {
    hide Overlay, Regular, Mounted, MOUNT, Mounts, Virtual, PackageFile, Canonical, EnsureParents, PackagePaths.SafeName;
    files := start;
    ghost var done: set<string> := {};
    var todo := package.Keys;
    NothingMounted(package, placed);
    while todo != {}
      invariant todo <= package.Keys && done == package.Keys - todo
      invariant Overlay(base, placed + Mounted(package, placed.Keys, done), files)
      decreases todo
    {
      var name :| name in todo;
      MountOne(package, placed.Keys, done, name);
      if Mounts(name) {
        MountPrefix(name);
        var v := Virtual(name);
        if v !in placed {
          ghost var sofar := placed + Mounted(package, placed.Keys, done);
          VirtualCanonical(name);
          MountedRegular(package, placed.Keys, done);
          RegularBoth(placed, Mounted(package, placed.Keys, done));
          PlaceOne(base, sofar, files, v, PackageFile(name, package[name]));
          assert sofar[v := PackageFile(name, package[name])] == placed + Mounted(package, placed.Keys, done + {name});
          files := EnsureParents(files, v)[v := PackageFile(name, package[name])];
        }
      }
      done := done + {name};
      todo := todo - {name};
    }
    assert done == package.Keys;
  }

  lemma MountPrefix(name: string)
    requires Mounts(name)
    ensures MOUNT <= name
  {}

  lemma NothingMounted(package: map<string, string>, placed: Files)
    ensures placed + Mounted(package, placed.Keys, {}) == placed
  {
    assert VirtualNames({}) == {};
  }

  // ---- the tables ----

  /** A list of named values as a map, the last of a name counting. */
  function Filed<V>(items: seq<(string, V)>): map<string, V> {
    if items == [] then map[] else Filed(items[..|items| - 1])[items[|items| - 1].0 := items[|items| - 1].1]
  }

  method FileAll<V>(items: seq<(string, V)>) returns (m: map<string, V>)
    ensures m == Filed(items)
  {
    m := map[];
    for i := 0 to |items|
      invariant m == Filed(items[..i])
    {
      assert items[..i + 1][..i] == items[..i];
      m := m[items[i].0 := items[i].1];
    }
    assert items[..|items|] == items;
  }

  function UserItem(u: UserSpec): (string, User) {
    (u.name, User(u.name, u.uid, if u.gid == 0 then u.uid else u.gid, u.groups, u.shell))
  }

  const ROOT := User("root", 0, 0, ["root"], "/bin/bash")

  function UserItems(users: seq<UserSpec>): seq<(string, User)> {
    seq(|users|, i requires 0 <= i < |users| => UserItem(users[i]))
  }

  function UserTable(users: seq<UserSpec>): map<string, User> {
    var table := Filed(UserItems(users));
    if "root" in table then table else table["root" := ROOT]
  }

  function ServiceItems(services: seq<Service>): seq<(string, Service)> {
    seq(|services|, i requires 0 <= i < |services| => (services[i].name, services[i]))
  }

  function PackageItems(packages: seq<PackageSpec>): seq<(string, string)> {
    seq(|packages|, i requires 0 <= i < |packages| => (packages[i].name, packages[i].version))
  }

  /** sliceSet. */
  function SetOf(values: seq<string>): map<string, bool> { map v | v in values :: true }

  method SliceSet(values: seq<string>) returns (m: map<string, bool>)
    ensures m == SetOf(values)
  {
    m := map[];
    for i := 0 to |values|
      invariant m == SetOf(values[..i])
    {
      assert values[..i + 1] == values[..i] + [values[i]];
      m := m[values[i] := true];
    }
    assert values[..|values|] == values;
  }

  function ZoneTable(zones: map<string, ZoneSpec>): map<string, Zone> {
    map z | z in zones :: Zone(zones[z].interfaces, SetOf(zones[z].services), SetOf(zones[z].ports))
  }

  method MakeZones(zones: map<string, ZoneSpec>) returns (m: map<string, Zone>)
    ensures m == ZoneTable(zones)
  {
    hide SetOf;
    m := map[];
    var todo := zones.Keys;
    while todo != {}
      invariant todo <= zones.Keys
      invariant m == map z | z in zones && z !in todo :: Zone(zones[z].interfaces, SetOf(zones[z].services), SetOf(zones[z].ports))
      decreases todo
    {
      var z :| z in todo;
      var services := SliceSet(zones[z].services);
      var ports := SliceSet(zones[z].ports);
      m := m[z := Zone(zones[z].interfaces, services, ports)];
      todo := todo - {z};
    }
  }

  // ---- what the running units bring with them ----

  /** A web unit of these is running, and some zone lets it be reached. */
  predicate Serves(services: map<string, Service>, zones: map<string, Zone>, names: set<string>) {
    Services.WebAllowed(zones) && exists n | n in names :: Services.IsWeb(n) && Services.IsRunning(services, n)
  }

  function FirstPorts(services: map<string, Service>, zones: map<string, Zone>, addresses: seq<string>, names: set<string>): map<string, bool> {
    if Serves(services, zones, names) then Services.WebPorts(addresses) else map[]
  }

  /** The loop over the services, in any order, that publishes the effects of the running ones. */
  method PublishRunning(h: Host) returns (ports: map<string, bool>)
    requires h.openPorts == map[]
    ensures ports == FirstPorts(h.services, h.zones, h.addresses, h.services.Keys)
  {
    hide Services.WebPorts, Services.IsWeb, Services.WebAllowed, Services.IsRunning;
    var now := h;
    ghost var done: set<string> := {};
    var todo := h.services.Keys;
    while todo != {}
      invariant todo <= h.services.Keys && done == h.services.Keys - todo
      invariant now == h.(openPorts := FirstPorts(h.services, h.zones, h.addresses, done))
      decreases todo
    {
      var name :| name in todo;
      OneServes(h.services, h.zones, done, name);
      if Services.IsRunning(now.services, name) { now := Services.Publish(now, name); }
      assert Services.WebPorts(h.addresses) + Services.WebPorts(h.addresses) == Services.WebPorts(h.addresses);
      assert map[] + Services.WebPorts(h.addresses) == Services.WebPorts(h.addresses);
      done := done + {name};
      todo := todo - {name};
    }
    assert done == h.services.Keys;
    ports := now.openPorts;
  }

  lemma OneServes(services: map<string, Service>, zones: map<string, Zone>, names: set<string>, n: string)
    ensures Serves(services, zones, names + {n}) <==>
              Serves(services, zones, names) || (Services.WebAllowed(zones) && Services.IsWeb(n) && Services.IsRunning(services, n))
  {
    hide Services.IsWeb, Services.WebAllowed, Services.IsRunning;
    assert n in names + {n};
    if Serves(services, zones, names) {
      var m :| m in names && Services.IsWeb(m) && Services.IsRunning(services, m);
      assert m in names + {n};
    }
  }

  /** The messages that NewState logs: those of every unit's failure, in the order of the scenario. */
  function FirstJournal(h: Host, services: seq<Service>): (r: Host)
    ensures r == h.(journal := r.journal)
    decreases |services|
  {
    if services == [] then h
    else FirstJournal(Services.JournalAll(h, "", services[0].name, services[0].onFailure), services[1..])
  }

  method LogAll(h: Host, services: seq<Service>) returns (after: Host)
    ensures after == FirstJournal(h, services)
  {
    after := h;
    for i := 0 to |services|
      invariant FirstJournal(after, services[i..]) == FirstJournal(h, services)
    {
      var unit := services[i];
      assert services[i..][0] == unit && services[i..][1..] == services[i + 1..];
      ghost var before := after;
      for k := 0 to |unit.onFailure|
        invariant Services.JournalAll(after, "", unit.name, unit.onFailure[k..]) == Services.JournalAll(before, "", unit.name, unit.onFailure)
      {
        var item := unit.onFailure[k];
        assert unit.onFailure[k..][0] == item && unit.onFailure[k..][1..] == unit.onFailure[k + 1..];
        after := Services.Journal(after, "", unit.name, item.priority, item.message);
      }
      assert unit.onFailure[|unit.onFailure|..] == [];
    }
    assert services[|services|..] == [];
  }

  // ---- the machine ----

  /** installRHELBase, for a host name, the users, the scenario and the time. */
  datatype Base = Base(files: (string, map<string, User>, Scenario, int) -> Files)

  function HostName(spec: Scenario): string { OrElse(spec.hostname, "localhost.localdomain") }

  function FirstUser(spec: Scenario): string { OrElse(spec.initialUser, "root") }

  function BaseFiles(B: Base, spec: Scenario, clock: int): Files {
    B.files(HostName(spec), UserTable(spec.users), spec, clock)
  }

  function Environment(user: string, shell: string, hostname: string): map<string, string> {
    map["HOME" := M.Home(user), "USER" := user, "LOGNAME" := user, "SHELL" := OrElse(shell, "/bin/bash"), "PWD" := M.Home(user),
        "PATH" := "/usr/local/sbin:/usr/local/bin:/usr/sbin:/usr/bin:/sbin:/bin", "LANG" := "en_US.UTF-8", "HOSTNAME" := hostname]
  }

  /** The first error, if there is one. */
  function Problem(spec: Scenario): Option<BootError> {
    if FirstUser(spec) !in UserTable(spec.users) then Just(UndefinedUser)
    else
      match EntryFiles(spec.entries)
      case Refused(e) => Just(e)
      case Made(_) => Nothing
  }

  /** All files that the scenario and its package place over the base. */
  function AllPlaced(spec: Scenario, package: map<string, string>): Files
    requires EntryFiles(spec.entries).Made?
  {
    var placed := EntryFiles(spec.entries).value;
    placed + Mounted(package, placed.Keys, package.Keys)
  }

  /** Everything but the files, before the units are looked at. */
  function Outline(spec: Scenario, clock: int, files: Files): Host
    requires FirstUser(spec) in UserTable(spec.users)
  {
    var users := UserTable(spec.users);
    var user := FirstUser(spec);
    Host(HostName(spec), clock, files, users, Filed(ServiceItems(spec.services)), [], [], spec.addresses, spec.dns, ZoneTable(spec.zones),
         map[], map[], OrElse(spec.selinux, "enforcing"), Filed(PackageItems(spec.packages)),
         Environment(user, users[user].shell, HostName(spec)), user, M.Home(user))
  }

  /** The ports, the process table and the journal that the units bring with them. */
  function WithUnits(h: Host, services: seq<Service>): Host {
    var published := h.(openPorts := FirstPorts(h.services, h.zones, h.addresses, h.services.Keys));
    FirstJournal(Services.Rebuild(published), services)
  }

  /** What a scenario and its package are made into. */
  ghost predicate Booted(B: Base, spec: Scenario, package: map<string, string>, clock: int, h: Host) {
    && Problem(spec) == Nothing
    && Overlay(BaseFiles(B, spec, clock), AllPlaced(spec, package), h.files)
    && h == WithUnits(Outline(spec, clock, h.files), spec.services)
  }

  /** NewState refuses exactly the scenarios with an undefined initial user or a bad entry;
      every other one is made into a machine, in whatever order the maps are visited. */
  method NewState(B: Base, spec: Scenario, package: map<string, string>, clock: int) returns (r: Result<Host>)
    requires forall n | n in package :: PackagePaths.SafeName(n)
    ensures r.Refused? <==> Problem(spec).Just?
    ensures r.Refused? ==> r.error == Problem(spec).value
    ensures r.Made? ==> Booted(B, spec, package, clock, r.value)
  {
    hide Overlay, Mounted, EntryFiles, Environment, ZoneTable, Filed, UserItems, ServiceItems, PackageItems, FirstPorts, FirstJournal, PackagePaths.SafeName, M.Home, Services.Table, OrElse;
    var table := FileAll(UserItems(spec.users));
    var users := if "root" in table then table else table["root" := ROOT];
    if spec.initialUser !in users && spec.initialUser != "" { NamedUser(spec); return Refused(UndefinedUser); }
    DefaultUser(spec);
    var user := OrElse(spec.initialUser, "root");
    var hostname := OrElse(spec.hostname, "localhost.localdomain");
    var base := B.files(hostname, users, spec, clock);
    var entered, placed := PlaceEntries(base, spec.entries);
    if placed.Refused? { return Refused(placed.error); }
    EntriesRegular(spec.entries);
    var files := PlacePackage(base, placed.value, entered, package);
    var services := FileAll(ServiceItems(spec.services));
    var packages := FileAll(PackageItems(spec.packages));
    var zones := MakeZones(spec.zones);
    var h := Host(hostname, clock, files, users, services, [], [], spec.addresses, spec.dns, zones, map[], map[],
                  OrElse(spec.selinux, "enforcing"), packages, Environment(user, users[user].shell, hostname), user, M.Home(user));
    assert h == Outline(spec, clock, files);
    var ports := PublishRunning(h);
    var rebuilt := Services.Rebuild(h.(openPorts := ports));
    var logged := LogAll(rebuilt, spec.services);
    r := Made(logged);
  }

  lemma NamedUser(spec: Scenario)
    requires spec.initialUser != ""
    ensures FirstUser(spec) == spec.initialUser
  {}

  lemma DefaultUser(spec: Scenario)
    requires spec.initialUser == "" || spec.initialUser in UserTable(spec.users)
    ensures FirstUser(spec) in UserTable(spec.users)
  {
    hide Filed;
  }

  /** A scenario and its package make one machine. */
  lemma BootedUnique(B: Base, spec: Scenario, package: map<string, string>, clock: int, g: Host, h: Host)
    requires Booted(B, spec, package, clock, g) && Booted(B, spec, package, clock, h)
    ensures g == h
  {
    hide Overlay, WithUnits, Outline, AllPlaced, EntryFiles;
    OverlayUnique(BaseFiles(B, spec, clock), AllPlaced(spec, package), g.files, h.files);
  }

  lemma AllRegular(spec: Scenario, package: map<string, string>)
    requires EntryFiles(spec.entries).Made? && forall n | n in package :: PackagePaths.SafeName(n)
    ensures Regular(AllPlaced(spec, package))
  {
    hide Regular, Mounted, EntryFiles, PackagePaths.SafeName;
    EntriesRegular(spec.entries);
    var placed := EntryFiles(spec.entries).value;
    MountedRegular(package, placed.Keys, package.Keys);
    RegularBoth(placed, Mounted(package, placed.Keys, package.Keys));
  }

  lemma UnitsSynced(h: Host, services: seq<Service>)
    ensures var after := WithUnits(h, services);
            && Services.Covered(after) && after.files == h.files && after.cwd == h.cwd
  {
    hide FirstPorts, Services.Table;
    var after := WithUnits(h, services);
    assert Services.Covers(after, Services.RunningNames(after.services));
  }

  /** A new machine is sound, which every later operation then keeps or not as RunExact says,
      exactly if there is room for every placed file and the first user's home is a path. */
  lemma FreshExact(B: Base, spec: Scenario, package: map<string, string>, clock: int, h: Host)
    requires Booted(B, spec, package, clock, h) && forall n | n in package :: PackagePaths.SafeName(n)
    requires TreeInv(BaseFiles(B, spec, clock))
    ensures M.Sound(h) <==> RoomForAll(BaseFiles(B, spec, clock), AllPlaced(spec, package)) && Canonical(M.Home(FirstUser(spec)))
  {
    hide TreeInv, Canonical, Overlay, RoomForAll, WithUnits, AllPlaced, EntryFiles, PackagePaths.SafeName, Services.Covered, M.Home;
    AllRegular(spec, package);
    OverlayExact(BaseFiles(B, spec, clock), AllPlaced(spec, package), h.files);
    UnitsSynced(Outline(spec, clock, h.files), spec.services);
  }

  /** Whole lives: from a scenario on, resets included, the machine is sound after every
      operation exactly if it was made sound and the guard of every operation holds. */
  lemma LifeExact(R: M.Identity, B: Base, spec: Scenario, package: map<string, string>, clock: int, h: Host, ops: seq<M.Op>)
    requires Booted(B, spec, package, clock, h) && forall n | n in package :: PackagePaths.SafeName(n)
    requires TreeInv(BaseFiles(B, spec, clock)) && Canonical(M.Home(FirstUser(spec)))
    ensures Canonical(h.cwd)
    ensures M.AlwaysSound(R, M.Machine(h, h), ops)
       <==> RoomForAll(BaseFiles(B, spec, clock), AllPlaced(spec, package)) && M.SafeRun(R, M.Machine(h, h), ops)
  {
    hide TreeInv, Canonical, Booted, RoomForAll, AllPlaced, M.Sound, M.SafeRun, M.AlwaysSound, PackagePaths.SafeName;
    FreshExact(B, spec, package, clock, h);
    BootedHome(B, spec, package, clock, h);
    if M.Sound(h) { M.RunExact(R, M.Machine(h, h), ops); } else { M.NotSound(R, M.Machine(h, h), ops); }
  }

  lemma BootedHome(B: Base, spec: Scenario, package: map<string, string>, clock: int, h: Host)
    requires Booted(B, spec, package, clock, h)
    ensures h.cwd == M.Home(FirstUser(spec))
  {
    hide Overlay, AllPlaced, FirstPorts, Services.Table, M.Home;
    UnitsSynced(Outline(spec, clock, h.files), spec.services);
  }

  /** An entry in place of a directory that is not empty is accepted, and leaves no tree. */
  lemma EntryOverDirectoryBreaks(B: Base, spec: Scenario, package: map<string, string>, clock: int, h: Host, p: string, k: string)
    requires Booted(B, spec, package, clock, h) && forall n | n in package :: PackagePaths.SafeName(n)
    requires TreeInv(BaseFiles(B, spec, clock)) && spec.entries == [EntrySpec(p, "", "", "", "", "")]
    requires Canonical(p) && k in BaseFiles(B, spec, clock) && Under(p, k) && k != p
    ensures !TreeInv(h.files)
  {
    hide TreeInv, Canonical, Under, Overlay, WithUnits, Mounted, NormalizePath, PackagePaths.SafeName;
    AllRegular(spec, package);
    OverlayExact(BaseFiles(B, spec, clock), AllPlaced(spec, package), h.files);
    assert spec.entries[..0] == [];
    NormalizeIdempotent(p, "/");
    assert p in AllPlaced(spec, package);
    assert !Room(BaseFiles(B, spec, clock), AllPlaced(spec, package), p);
  }

  // ---- numbers, names and the environment ----

  /** The octal digits of a number. */
  function OctalText(n: nat): string {
    if n < 8 then [OctalChar(n)] else OctalText(n / 8) + [OctalChar(n % 8)]
  }

  function OctalChar(n: nat): char
    requires n < 8
  {
    ('0' as int + n) as char
  }

  lemma {:induction false} OctalRead(n: nat)
    ensures OctalText(n) != "" && forall c | c in OctalText(n) :: OctalDigit(c)
    ensures OctalValue(OctalText(n)) == n
  {
    if n >= 8 {
      OctalRead(n / 8);
      var front, last := OctalText(n / 8), OctalChar(n % 8);
      assert OctalText(n) == front + [last];
      assert OctalText(n)[..|front|] == front;
    } else {
      assert OctalText(n)[..0] == "";
    }
  }

  predicate Octal(t: string) { forall c | c in t :: OctalDigit(c) }

  lemma NotPrefixed(t: string)
    requires Octal(t)
    ensures !("0o" <= t)
  {
    if |t| >= 2 { assert t[1] in t; }
  }

  lemma ReadsOctal(t: string, fallback: bv32)
    requires Octal(t) && t != ""
    ensures ParseMode(t, fallback) == ParseMode("0o" + t, fallback)
         == if OctalValue(t) < 0x1_0000_0000 then Just(OctalValue(t) as bv32) else Nothing
  {
    NotPrefixed(t);
    UintExact(t);
    hide ParseUint, OctalValue, Octal;
    assert ("0o" + t)[2..] == t;
  }

  lemma UintExact(t: string)
    requires Octal(t) && t != ""
    ensures ParseUint(t) == if OctalValue(t) < 0x1_0000_0000 then Just(OctalValue(t) as bv32) else Nothing
  {
    hide OctalValue;
  }

  lemma OtherRefused(text: string, fallback: bv32)
    requires !("0o" <= text) && !Octal(text)
    ensures ParseMode(text, fallback) == Nothing
  {
    hide OctalValue, OctalDigit;
  }

  /** A mode is read in octal, with `0o` in front or without; a number that needs more than 32 bits, another
      character, and `0o` alone are refused; no text at all is the fallback. */
  lemma ModesAreOctal(n: nat, fallback: bv32, text: string)
    ensures ParseMode("", fallback) == Just(fallback) && ParseMode("0o", fallback) == Nothing
    ensures ParseMode(OctalText(n), fallback) == ParseMode("0o" + OctalText(n), fallback)
         == if n < 0x1_0000_0000 then Just(n as bv32) else Nothing
    ensures !("0o" <= text) && (exists c | c in text :: !('0' <= c <= '7')) ==> ParseMode(text, fallback) == Nothing
  {
    Fallback(fallback);
    hide OctalValue, ParseMode;
    OctalRead(n);
    ReadsOctal(OctalText(n), fallback);
    if !("0o" <= text) && !Octal(text) { OtherRefused(text, fallback); }
  }

  lemma Fallback(fallback: bv32)
    ensures ParseMode("", fallback) == Just(fallback) && ParseMode("0o", fallback) == Nothing
  {
    hide OctalValue;
    assert "0o"[2..] == "";
  }

  /** In a list of named values the last of a name counts. */
  lemma {:induction false} FiledExact<V>(items: seq<(string, V)>, name: string)
    ensures name in Filed(items) <==> exists i: nat :: i < |items| && items[i].0 == name
    ensures forall i: nat | i < |items| && items[i].0 == name && (forall j: nat | i < j < |items| :: items[j].0 != name) ::
              name in Filed(items) && Filed(items)[name] == items[i].1
    decreases |items|
  {
    if items != [] {
      var init, last := items[..|items| - 1], items[|items| - 1];
      FiledExact(init, name);
      if last.0 != name && name in Filed(init) {
        var i: nat :| i < |init| && init[i].0 == name;
        assert items[i].0 == name;
      }
      forall i: nat | i < |items| && items[i].0 == name && (forall j: nat | i < j < |items| :: items[j].0 != name)
        ensures name in Filed(items) && Filed(items)[name] == items[i].1
      {
        if i < |init| { assert init[i].0 == name && forall j: nat | i < j < |init| :: init[j].0 != name; }
      }
    }
  }

  /** What the users, units and packages of a new machine are: each the last of its name in the scenario,
      a user without group id in the group of its own number, and root whether it is listed or not. */
  lemma BootedTables(B: Base, spec: Scenario, package: map<string, string>, clock: int, h: Host, i: nat)
    requires Booted(B, spec, package, clock, h)
    ensures "root" in h.users
    ensures (forall u | u in spec.users :: u.name != "root") ==> h.users["root"] == User("root", 0, 0, ["root"], "/bin/bash")
    ensures i < |spec.users| && (forall j: nat | i < j < |spec.users| :: spec.users[j].name != spec.users[i].name) ==>
              var u := spec.users[i];
              u.name in h.users && h.users[u.name] == User(u.name, u.uid, if u.gid == 0 then u.uid else u.gid, u.groups, u.shell)
    ensures i < |spec.services| && (forall j: nat | i < j < |spec.services| :: spec.services[j].name != spec.services[i].name) ==>
              spec.services[i].name in h.services && h.services[spec.services[i].name] == spec.services[i]
    ensures i < |spec.packages| && (forall j: nat | i < j < |spec.packages| :: spec.packages[j].name != spec.packages[i].name) ==>
              spec.packages[i].name in h.packages && h.packages[spec.packages[i].name] == spec.packages[i].version
  {
    hide Overlay, AllPlaced, FirstPorts, Services.Table, M.Home, Filed, Environment, ZoneTable, OrElse, EntryFiles;
    UnitsSynced(Outline(spec, clock, h.files), spec.services);
    var users, services, packages := UserItems(spec.users), ServiceItems(spec.services), PackageItems(spec.packages);
    FiledExact(users, "root");
    if i < |users| { FiledExact(users, users[i].0); }
    if i < |services| { FiledExact(services, services[i].0); }
    if i < |packages| { FiledExact(packages, packages[i].0); }
    if forall u | u in spec.users :: u.name != "root" {
      forall k: nat | k < |users| ensures users[k].0 != "root" { assert spec.users[k] in spec.users; }
    }
  }

  /** The environment of a new machine: its user, in the home directory, which `~` stands for. */
  lemma BootedEnvironment(B: Base, spec: Scenario, package: map<string, string>, clock: int, h: Host)
    requires Booted(B, spec, package, clock, h)
    ensures h.currentUser == (if spec.initialUser == "" then "root" else spec.initialUser) && h.currentUser in h.users
    ensures h.cwd == (if h.currentUser == "root" then "/root" else "/home/" + h.currentUser)
    ensures h.env.Keys == {"HOME", "USER", "LOGNAME", "SHELL", "PWD", "PATH", "LANG", "HOSTNAME"}
    ensures h.env["HOME"] == h.env["PWD"] == h.cwd && h.env["USER"] == h.env["LOGNAME"] == h.currentUser
    ensures h.env["SHELL"] == (if h.users[h.currentUser].shell == "" then "/bin/bash" else h.users[h.currentUser].shell)
    ensures h.env["HOSTNAME"] == h.hostname == (if spec.hostname == "" then "localhost.localdomain" else spec.hostname)
    ensures h.selinux == (if spec.selinux == "" then "enforcing" else spec.selinux) && h.clock == clock && h.http == map[]
    ensures Interpreter.Expand("~", h.env) == h.cwd
  {
    hide Overlay, AllPlaced, FirstPorts, Services.Table, Filed, ZoneTable, EntryFiles;
    UnitsSynced(Outline(spec, clock, h.files), spec.services);
  }

  /** A file that an entry of the scenario becomes. */
  lemma EntryExact(e: EntrySpec)
    ensures EntryFile(e).Made? <==> e.path != "" && ParseMode(e.mode, 0x1a4).Just?
    ensures e.path == "" ==> EntryFile(e) == Refused(BadPath)
    ensures e.path != "" && ParseMode(e.mode, 0x1a4).Nothing? ==> EntryFile(e) == Refused(BadMode)
    ensures EntryFile(e).Made? ==>
              var f := EntryFile(e).value;
              && NormalizePath(e.path, "/") == Ok(f.path) && f.content == e.content && f.selinuxType == e.selinuxType && !f.directory
              && f.owner == (if e.owner == "" then "root" else e.owner) && f.group == (if e.group == "" then "root" else e.group)
              && Just(f.mode) == ParseMode(e.mode, 0x1a4)
  {
    hide ParseMode, Canonical;
    RootParts();
    if e.path != "" { NormalizeMeaning(e.path, "/"); }
  }
}
