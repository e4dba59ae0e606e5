/** Where a copied or moved entry arrives, what mkdir -p makes, for whom, and why it stops. */
module Arrivals {
  import opened Text
  import opened Paths
  import opened Host
  import opened FileTree
  import opened FileMoves
  import FileMeaning
  import FileTheorems
  import opened Access

  // ---- copies ----

  /** An existing directory receives a child under the source's last component. */
  lemma TargetExact(files: Files, src: string, dst: string)
    requires Canonical(src) && Canonical(dst) && src != "/"
    ensures Parts(src) != []
    ensures dst in files && files[dst].directory ==>
              Parts(Target(files, src, dst)) == Parts(dst) + [Parts(src)[|Parts(src)| - 1]]
    ensures !(dst in files && files[dst].directory) ==> Target(files, src, dst) == dst
  {
    hide Canonical, Base, JoinPath, Render;
    NonRootParts(src);
    var cs := Parts(src);
    assert Canonical(src) ==> src == Render(cs) && ValidParts(cs) by { CanonicalRender(src); }
    CanonicalRender(dst);
    BaseRender(cs);
    assert ValidPart(cs[|cs| - 1]);
    JoinRender(Parts(dst), cs[|cs| - 1]);
    PartsRender(Parts(dst) + [cs[|cs| - 1]]);
  }

  lemma CanonicalRender(p: string)
    requires Canonical(p)
    ensures p == Render(Parts(p)) && ValidParts(Parts(p))
  {}

  /** The components of the place where a copy of `src` onto `dst` arrives. */
  ghost predicate ArrivesAt(files: Files, src: string, dst: string, at: string) {
    && Canonical(at) && Parts(src) != []
    && Parts(at) == if dst in files && files[dst].directory then Parts(dst) + [Parts(src)[|Parts(src)| - 1]] else Parts(dst)
  }

  lemma ArrivesAtTarget(files: Files, src: string, dst: string, at: string)
    requires Canonical(src) && Canonical(dst) && src != "/" && ArrivesAt(files, src, dst, at)
    ensures at == Target(files, src, dst)
  {
    hide Canonical, Target;
    TargetExact(files, src, dst);
    TargetCanonical(files, src, dst);
    UnderParts(at, Target(files, src, dst));
  }

  /** An accepted copy or move leaves the source's own entry where it arrives, a directory's as
      well as a regular file's, with its owner, group, mode and content. */
  lemma CopyArrives(h: Host, source: string, destination: string, user: string, move: bool, recursive: bool,
                    src: string, dst: string, at: string)
    requires TreeInv(h.files) && Canonical(h.cwd) && source != "" && destination != ""
    requires NormalizePath(source, h.cwd) == Ok(src) && NormalizePath(destination, h.cwd) == Ok(dst)
    requires src != "/" && Canonical(src) && Canonical(dst) && ArrivesAt(h.files, src, dst, at) && !Under(src, at)
    requires CopyRecursive(h, source, destination, user, move, recursive).1.Done?
    ensures var after := CopyRecursive(h, source, destination, user, move, recursive).0.files;
            src in h.files && at in after && after[at] == h.files[src].(path := at)
  {
    hide Canonical, Under, EnsureParents, CopyRecursive, TreeInv, Target, CopyResult, ArrivesAt;
    ArrivesAtTarget(h.files, src, dst, at);
    FileTheorems.AcceptedIsResult(h, source, destination, user, move, recursive, src, at);
    var grown := EnsureParents(h.files, at);
    FileTheorems.GrownIsResult(h.files, src, at, move);
    TreeKeys(h.files);
    EnsureParentsNoKeys(h.files, at);
    RootArrives(grown, src, at, move);
  }

  lemma RootArrives(files: Files, src: string, at: string, move: bool)
    requires (forall n | n in files :: Canonical(n)) && src in files
    requires Canonical(src) && Canonical(at) && src != "/" && at != "/" && !Under(src, at)
    ensures var after := CopyResult(files, src, at, move);
            at in after && after[at] == files[src].(path := at)
  {
    hide Canonical, CopyResult, Carried, Under, Less, Before;
    CopyResultMeaning(files, src, at, move, at);
    RenamedSource(at, src);
    RenamedSource(src, at);
    FoundAsItWas(files, src, at);
  }

  /** The source itself is the first of its subtree that the loop reads. */
  lemma FoundAsItWas(files: Files, src: string, at: string)
    requires src in files
    ensures Carried(files, src, at, src) == files[src]
  {
    hide Less, Before;
    if Under(at, src) {
      assert Renamed(at, src, src) == src + src[|at|..];
      NotBefore(src, src[|at|..]);
    }
  }

  lemma {:induction false} NotBefore(s: string, t: string)
    ensures !Less(s + t, s)
  {
    if s != "" {
      assert (s + t)[1..] == s[1..] + t;
      NotBefore(s[1..], t);
    }
  }

  // ---- parents ----

  /** What a write or copy creates on the way to its path: empty directories of root's, with mode 0755. */
  lemma ParentsExact(files: Files, p: string, k: string)
    requires Canonical(p) && k in EnsureParents(files, p)
    ensures EnsureParents(files, p)[k] == if k in files then files[k] else File(k, "", "root", "root", 0x1ed, "", true)
  {
    hide Canonical, EnsureParents, Under;
    EnsureParentsKeeps(files, p);
    if k !in files { FileMeaning.ParentsAdded(files, p, k); }
  }

  // ---- mkdir -p ----

  /** A directory that a user makes. */
  function Made(h: Host, p: string, user: string): File {
    var group := if user in h.users && h.users[user].groups != [] then h.users[user].groups[0] else user;
    File(p, "", user, group, 0x1ed, "", true)
  }

  lemma MadeExact(h: Host, p: string, user: string)
    ensures NewDirectory(h, p, user) == Made(h, p, user)
    ensures user == "root" || user in h.users ==> MayWrite(h, NewDirectory(h, p, user), user)
  {}

  /** Whoever may write a directory may be anybody known. */
  lemma WriterIsKnown(h: Host, f: File, user: string)
    requires MayWrite(h, f, user)
    ensures user == "root" || user in h.users
  {}

  /** Below a directory that the user may write, with nothing there yet, all the components are made. */
  lemma {:induction false} MakesTheRest(h: Host, parts: seq<string>, i: nat, user: string)
    requires TreeInv(h.files) && ValidParts(parts) && i <= |parts|
    requires Render(parts[..i]) in h.files && h.files[Render(parts[..i])].directory && MayWrite(h, h.files[Render(parts[..i])], user)
    requires forall k | i < k <= |parts| :: Render(parts[..k]) !in h.files
    ensures var (after, outcome) := MakeDirs(h, parts, i, user);
            && outcome.Done?
            && (forall k | k in h.files :: k in after.files && after.files[k] == h.files[k])
            && (forall k | k in after.files && k !in h.files :: after.files[k] == Made(h, k, user))
    decreases |parts| - i
  {
    hide TreeInv, Dir, Canonical, CanWrite, MayWrite, PrimaryGroup, Render, NewDirectory, Made, ValidParts;
    if i < |parts| {
      var current := Render(parts[..i + 1]);
      var parent := Render(parts[..i]);
      StepDown(parts, i);
      Bits(h, h.files[parent], user);
      WriterIsKnown(h, h.files[parent], user);
      var f := NewDirectory(h, current, user);
      MadeExact(h, current, user);
      var next := h.(files := h.files[current := f]);
      MadeIsDirectory(h, current, user);
      TreeAdd(h.files, current, f);
      SameUsers(h, next, f, user);
      forall k | i + 1 < k <= |parts| ensures Render(parts[..k]) !in next.files {
        PrefixesDiffer(parts, i + 1, k);
      }
      MakesTheRest(next, parts, i + 1, user);
      forall k ensures Made(next, k, user) == Made(h, k, user) { SameMade(h, next, k, user); }
    }
  }

  lemma SameMade(h: Host, g: Host, k: string, user: string)
    requires g.users == h.users
    ensures Made(g, k, user) == Made(h, k, user)
  {}

  lemma MadeIsDirectory(h: Host, p: string, user: string)
    ensures NewDirectory(h, p, user).path == p && NewDirectory(h, p, user).directory
  {}

  lemma StepDown(parts: seq<string>, i: nat)
    requires ValidParts(parts) && i < |parts|
    ensures Canonical(Render(parts[..i + 1])) && Dir(Render(parts[..i + 1])) == Render(parts[..i])
  {
    var cs := parts[..i + 1];
    assert forall c | c in cs :: c in parts;
    PartsRender(cs);
    DirRender(cs);
    assert cs[..i] == parts[..i];
  }

  lemma PrefixesDiffer(parts: seq<string>, i: nat, k: nat)
    requires ValidParts(parts) && i < k <= |parts|
    ensures Render(parts[..i]) != Render(parts[..k])
  {
    assert forall c | c in parts[..i] :: c in parts;
    assert forall c | c in parts[..k] :: c in parts;
    if Render(parts[..i]) == Render(parts[..k]) { RenderInjective(parts[..i], parts[..k]); }
  }

  /** On a tree the entries above an existing one exist and are directories. */
  lemma {:induction false} PrefixesThere(files: Files, parts: seq<string>, i: nat, j: nat)
    requires TreeInv(files) && ValidParts(parts) && i <= j <= |parts| && Render(parts[..j]) in files
    ensures Render(parts[..i]) in files && (i < j ==> files[Render(parts[..i])].directory)
  {
    hide TreeInv, Dir, Canonical, Render, ValidParts, Under;
    if i < j {
      var below := Render(parts[..j]);
      assert Canonical(below) by { StepDown(parts, j - 1); }
      PrefixUnder(parts, i, j);
      PrefixesDiffer(parts, i, j);
      AncestorsPresent(files, below, Render(parts[..i]));
    }
  }

  lemma PrefixUnder(parts: seq<string>, i: nat, j: nat)
    requires ValidParts(parts) && i <= j <= |parts|
    ensures Canonical(Render(parts[..i])) && Under(Render(parts[..i]), Render(parts[..j]))
  {
    assert forall c | c in parts[..i] :: c in parts;
    assert forall c | c in parts[..j] :: c in parts;
    assert parts[..i] <= parts[..j];
    PartsRender(parts[..i]);
    UnderRender(parts[..i], parts[..j]);
  }

  /** The loop passes what is there. */
  lemma {:induction false} PassesDirectories(h: Host, parts: seq<string>, i: nat, n: nat, user: string)
    requires TreeInv(h.files) && ValidParts(parts) && i <= n <= |parts| && Render(parts[..n]) in h.files
    requires h.files[Render(parts[..n])].directory
    ensures MakeDirs(h, parts, i, user) == MakeDirs(h, parts, n, user)
    decreases n - i
  {
    hide TreeInv, CanWrite, Render, ValidParts;
    if i < n {
      PrefixesThere(h.files, parts, i + 1, n);
      PassesDirectories(h, parts, i + 1, n, user);
    }
  }

  /** From the deepest entry that is there: its parent is passed, and what follows depends on it alone. */
  lemma FromDeepest(h: Host, parts: seq<string>, n: nat, user: string)
    requires TreeInv(h.files) && ValidParts(parts) && n < |parts|
    requires Render(parts[..n]) in h.files && Render(parts[..n + 1]) !in h.files
    ensures var deepest := h.files[Render(parts[..n])];
            var (after, outcome) := MakeDirs(h, parts, 0, user);
            && outcome == (if !deepest.directory then Failed(NotADirectory)
                           else if !MayWrite(h, deepest, user) then Failed(PermissionDenied) else Done)
            && (outcome.Failed? ==> after == h)
            && forall k | k in after.files && k !in h.files :: after.files[k] == Made(h, k, user)
  {
    hide TreeInv, Dir, Canonical, CanWrite, MayWrite, Render, NewDirectory, Made, ValidParts;
    var there := Render(parts[..n]);
    if h.files[there].directory {
      PassesDirectories(h, parts, 0, n, user);
      StepDown(parts, n);
      Bits(h, h.files[there], user);
      forall k | n < k <= |parts| ensures Render(parts[..k]) !in h.files {
        if Render(parts[..k]) in h.files { PrefixesThere(h.files, parts, n + 1, k); }
      }
      if MayWrite(h, h.files[there], user) { MakesTheRest(h, parts, n, user); }
    } else {
      StopsAtFile(h, parts, n, user);
    }
  }

  lemma StopsAtFile(h: Host, parts: seq<string>, n: nat, user: string)
    requires TreeInv(h.files) && ValidParts(parts) && n < |parts|
    requires Render(parts[..n]) in h.files && !h.files[Render(parts[..n])].directory
    ensures MakeDirs(h, parts, 0, user) == (h, Failed(NotADirectory))
  {
    hide TreeInv, CanWrite, Render, ValidParts;
    RootPresent(h.files);
    PrefixesThere(h.files, parts, 0, n);
    NoPartIsRoot(parts);
    PrefixesThere(h.files, parts, n - 1, n);
    PassesDirectories(h, parts, 0, n - 1, user);
  }

  lemma NoPartIsRoot(parts: seq<string>)
    ensures Render(parts[..0]) == "/"
  {}

  /** mkdir -p of a path that is not there is decided by the deepest entry above it: it has to be a
      directory that the user may write. What is made belongs to the user. */
  lemma MakeDirAllExact(h: Host, name: string, user: string, p: string, n: nat)
    requires TreeInv(h.files) && Canonical(h.cwd) && name != "" && NormalizePath(name, h.cwd) == Ok(p)
    requires n < |Parts(p)| && Render(Parts(p)[..n]) in h.files && Render(Parts(p)[..n + 1]) !in h.files
    ensures var deepest := h.files[Render(Parts(p)[..n])];
            var (after, outcome) := MakeDirAll(h, name, user);
            && outcome == (if !deepest.directory then Failed(NotADirectory)
                           else if !MayWrite(h, deepest, user) then Failed(PermissionDenied) else Done)
            && (outcome.Failed? ==> after == h)
            && forall k | k in after.files && k !in h.files :: after.files[k] == Made(h, k, user)
  {
    hide TreeInv, NormalizePath, Split, WithoutSlash, Render, ValidParts, Canonical, Parts, MayWrite, Made, MakeDirs;
    assert Canonical(p) by { NormalizeMeaning(name, h.cwd); }
    CanonicalRender(p);
    var parts := Parts(p);
    assert parts[..|parts|] == parts;
    if p in h.files { PrefixesThere(h.files, parts, n + 1, |parts|); }
    RootPresent(h.files);
    SplitParts(p);
    FromDeepest(h, parts, n, user);
  }

  // ---- why an operation on one path is refused ----

  lemma RefusedBecause(h: Host, name: string, text: string, user: string, append: bool)
    requires TreeInv(h.files) && Canonical(h.cwd) && name != ""
    ensures var p := Normalized(h, name).path;
            && (WriteFile(h, name, text, user, append).1.Failed? ==> WriteFile(h, name, text, user, append).1 == Failed(PermissionDenied))
            && (Touch(h, name, user).1.Failed? ==> Touch(h, name, user).1 == Failed(PermissionDenied))
            && (MakeDir(h, name, user).1 == Failed(FileExists) <==> p in h.files)
            && (MakeDir(h, name, user).1 == Failed(PermissionDenied) <==> p !in h.files && !MayEnter(h, p, user))
            && (Remove(h, name, user).1 == Failed(NotFound) <==> p !in h.files)
            && (Remove(h, name, user).1 == Failed(VirtualRoot) <==> p == "/")
            && (Remove(h, name, user).1 == Failed(PermissionDenied) <==> p in h.files && p != "/" && !MayEnter(h, p, user))
  {
    hide CanWrite, MayEnter, EnsureParents, Canonical, TreeInv, Dir, NormalizePath, Lookup, WithoutSubtree;
    var p := Normalized(h, name).path;
    ParentNow(h, p, user);
    RootPresent(h.files);
  }
}
