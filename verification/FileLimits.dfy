/** Where the filesystem operations fall short of the tree, and exactly when. */
module FileLimits {
  import opened Text
  import opened Paths
  import opened Host
  import opened FileTree
  import opened FileMoves
  import opened FileTheorems
  import opened FileConservation

  /** A created entry keeps the tree exactly when the existing entries on the way
      to it are directories: writing through a regular file is not refused. */
  lemma CreateExact(h: Host, p: string, f: File, user: string)
    requires TreeInv(h.files) && Canonical(p) && p !in h.files && f.path == p
    requires Create(h, p, f, user).1.Done?
    ensures TreeInv(Create(h, p, f, user).0.files) <==> AncestorsAreDirectories(h.files, p)
  {
    var after := Create(h, p, f, user).0.files;
    EnsureParentsKeeps(h.files, p);
    if AncestorsAreDirectories(h.files, p) {
      CreateKeepsTree(h, p, f, user);
    } else if TreeInv(after) {
      var k :| k in h.files && Under(k, p) && k != p && !h.files[k].directory;
      TreeKeys(h.files);
      AncestorsPresent(after, p, k);
    }
  }

  /** A refused creation leaves the map alone exactly when the parent was there:
      ensureParents runs before the permission check. */
  lemma RefusedCreateExact(h: Host, p: string, f: File, user: string)
    requires TreeInv(h.files) && Canonical(p) && p !in h.files
    requires Create(h, p, f, user).1.Failed?
    ensures Create(h, p, f, user).0 == h <==> Dir(p) in h.files
  {
    var grown := EnsureParents(h.files, p);
    RootParts();
    ParentOf(p);
    TreeKeys(h.files);
    EnsureParentsMeaning(h.files, p, Dir(p));
    if Dir(p) in h.files { NothingToCreate(h.files, p); }
  }

  /** A new entry keeps the tree exactly when its parent is an existing directory. */
  lemma AddExact(files: Files, p: string, f: File)
    requires TreeInv(files) && Canonical(p) && p !in files && f.path == p
    ensures TreeInv(files[p := f]) <==> Dir(p) in files && files[Dir(p)].directory
  {
    hide TreeInv, Canonical, Dir;
    if Dir(p) in files && files[Dir(p)].directory {
      TreeAdd(files, p, f);
    } else if TreeInv(files[p := f]) {
      RootPresent(files);
      ParentOf(p);
      ParentInTree(files[p := f], p);
    }
  }

  /** mkdir changes nothing, or adds one empty directory where nothing was; and that keeps
      the tree exactly when its parent is an existing directory, which nothing checks for root. */
  lemma MakeDirExact(h: Host, name: string, user: string)
    requires TreeInv(h.files) && Canonical(h.cwd)
    ensures var (after, r) := MakeDir(h, name, user);
            if r.Failed? then after == h
            else
              name != "" &&
              var p := Normalized(h, name).path;
              && p !in h.files && after.files == h.files[p := File(p, "", user, PrimaryGroup(h, user), 0x1ed, "", true)]
              && (TreeInv(after.files) <==> Dir(p) in h.files && h.files[Dir(p)].directory)
  {
    hide Canonical, Dir, NormalizePath, CanWrite, PrimaryGroup, TreeInv;
    if name != "" {
      var p := Normalized(h, name).path;
      if p !in h.files { AddExact(h.files, p, NewDirectory(h, p, user)); }
    }
  }

  /** A regular file written over an entry keeps the tree exactly when nothing is below it. */
  lemma RegularOverExact(files: Files, p: string, f: File)
    requires TreeInv(files) && p in files && p != "/" && f.path == p && !f.directory
    ensures TreeInv(files[p := f]) <==> !HasChildren(files, p)
  {
    if !HasChildren(files, p) {
      TreeReplace(files, p, f);
    } else {
      var k :| k in files && k != "/" && Dir(k) == p;
      assert !Placed(files[p := f], k);
    }
  }

  // ---- what a move conserves ----

  lemma {:induction false} RenamedCount(src: string, dst: string, keys: set<string>)
    requires forall k | k in keys :: Under(src, k)
    ensures |RenamedKeys(src, dst, keys)| == |keys|
    decreases |keys|
  {
    hide Renamed, Under;
    if keys != {} {
      var k :| k in keys;
      RenamedCount(src, dst, keys - {k});
      RenamedKeysStep(src, dst, keys, k);
    }
  }

  /** What a move leaves: the old keys and the landing keys that are not below the source. */
  lemma MovedKeys(files: Files, src: string, dst: string)
    requires TreeInv(files) && src in files && Canonical(src) && Canonical(dst) && src != "/" && dst != "/" && !Under(src, dst)
    ensures var grown, sub := EnsureParents(files, dst), SubtreeKeys(files, src);
            && sub <= files.Keys <= grown.Keys
            && (forall k :: k in CopyResult(grown, src, dst, true).Keys
                       <==> (k in grown.Keys || k in RenamedKeys(src, dst, sub)) && !Under(src, k))
            && (forall k | k in grown.Keys :: Under(src, k) <==> k in sub)
  {
    hide Canonical, Under, Renamed, EnsureParents, CopyResult, TreeInv;
    TreeKeys(files);
    EnsureParentsKeeps(files, dst);
    EnsureParentsNoKeys(files, dst);
    var grown, sub := EnsureParents(files, dst), SubtreeKeys(files, src);
    forall k | k in grown && Under(src, k) ensures k in sub { GrownSubtrees(files, src, dst, k); }
    forall k
      ensures k in CopyResult(grown, src, dst, true).Keys <==> (k in grown.Keys || k in RenamedKeys(src, dst, sub)) && !Under(src, k)
    {
      CopyResultMeaning(grown, src, dst, true, k);
      if Lands(grown, src, dst, k) { LandedFrom(grown, src, dst, k); }
      if k in RenamedKeys(src, dst, sub) {
        var n :| n in sub && k == Renamed(src, dst, n);
        RenamedMeaning(src, dst, n);
        GrownSubtrees(files, src, dst, n);
      }
    }
  }

  lemma FreshLandings(files: Files, src: string, dst: string)
    requires TreeInv(files) && src in files && Canonical(src) && Canonical(dst) && src != "/" && dst != "/" && !Under(src, dst)
    requires dst !in files
    ensures forall k | k in RenamedKeys(src, dst, SubtreeKeys(files, src)) :: k !in EnsureParents(files, dst) && !Under(src, k)
  {
    hide Canonical, Under, Renamed, EnsureParents, TreeInv;
    TreeKeys(files);
    NothingBelowFresh(files, dst, src);
    forall n | n in SubtreeKeys(files, src)
      ensures Renamed(src, dst, n) !in EnsureParents(files, dst) && !Under(src, Renamed(src, dst, n))
    {
      var r := Renamed(src, dst, n);
      RenamedMeaning(src, dst, n);
      GrownSubtrees(files, src, dst, r);
      if r in files { NothingBelowFresh(files, dst, r); }
      if Under(src, r) { UnderLinear(src, dst, r); }
    }
  }

  /** A free target: as many keys land as leave. */
  lemma FreshCount(files: Files, src: string, dst: string)
    requires TreeInv(files) && src in files && Canonical(src) && Canonical(dst) && src != "/" && dst != "/" && !Under(src, dst)
    requires dst !in files
    ensures |CopyResult(EnsureParents(files, dst), src, dst, true)| == |EnsureParents(files, dst)|
  {
    hide Canonical, Under, Renamed, EnsureParents, CopyResult, TreeInv, RenamedKeys;
    MovedKeys(files, src, dst);
    FreshLandings(files, src, dst);
    RenamedCount(src, dst, SubtreeKeys(files, src));
    var all, gone := EnsureParents(files, dst).Keys, SubtreeKeys(files, src);
    var landed, after := RenamedKeys(src, dst, gone), CopyResult(EnsureParents(files, dst), src, dst, true).Keys;
    assert forall k :: k in after <==> k in (all - gone) + landed;
    ThreeParts(all, gone, landed, after);
  }

  lemma ThreeParts(all: set<string>, gone: set<string>, landed: set<string>, after: set<string>)
    requires gone <= all && all !! landed && |landed| == |gone| && after == (all - gone) + landed
    ensures |after| == |all|
  {
    assert |all - gone| == |all| - |gone|;
  }

  /** A target that exists: one of the landing keys is an old one. */
  lemma TakenCount(files: Files, src: string, dst: string)
    requires TreeInv(files) && src in files && Canonical(src) && Canonical(dst) && src != "/" && dst != "/" && !Under(src, dst)
    requires dst in files
    ensures |CopyResult(EnsureParents(files, dst), src, dst, true)| < |files|
  {
    hide Canonical, Under, Renamed, EnsureParents, CopyResult, TreeInv;
    MovedKeys(files, src, dst);
    ParentInTree(files, dst);
    NothingToCreate(files, dst);
    SelfUnder(src);
    RenamedSource(src, dst);
    var sub := SubtreeKeys(files, src);
    RenamedCount(src, dst, sub);
    assert src in sub && dst in RenamedKeys(src, dst, sub);
    FewerLeft(files.Keys, sub, RenamedKeys(src, dst, sub), dst, CopyResult(files, src, dst, true).Keys);
  }

  lemma FewerLeft(all: set<string>, gone: set<string>, landed: set<string>, dst: string, after: set<string>)
    requires gone <= all && |landed| == |gone| && dst in landed && dst in all && dst !in gone
    requires after <= (all - gone) + landed
    ensures |after| < |all|
  {
    var most := (all - gone) + (landed - {dst});
    assert after <= most;
    assert most == after + (most - after);
    assert |most| == |after| + |most - after|;
    assert |all - gone| == |all| - |gone|;
    assert |most| <= |all - gone| + |landed - {dst}|;
  }

  lemma GrownCount(files: Files, dst: string)
    requires TreeInv(files) && Canonical(dst) && dst != "/"
    ensures if Dir(dst) in files then EnsureParents(files, dst) == files else |EnsureParents(files, dst)| > |files|
  {
    hide Canonical, Under, EnsureParents, TreeInv, Dir;
    if Dir(dst) in files {
      NothingToCreate(files, dst);
    } else {
      EnsureParentsKeeps(files, dst);
      MissingParentCreated(files, dst);
      var grown := EnsureParents(files, dst);
      assert grown.Keys == files.Keys + (grown.Keys - files.Keys);
      assert |grown.Keys| == |files.Keys| + |grown.Keys - files.Keys|;
      assert Dir(dst) in grown.Keys - files.Keys;
    }
  }

  lemma MissingParentCreated(files: Files, p: string)
    requires TreeInv(files) && Canonical(p) && Dir(p) !in files
    ensures Dir(p) in EnsureParents(files, p)
  {
    ParentOf(p);
    EnsureParentsMeaning(files, p, Dir(p));
  }

  /** An accepted move, of a file or of a directory with all its entries: the number of
      inodes is kept exactly when nothing was at the resolved target and its parent was
      there. Onto an existing entry inodes are lost, and missing parents are gained. */
  lemma MoveExact(h: Host, source: string, destination: string, user: string, recursive: bool, src: string, dst: string)
    requires TreeInv(h.files) && Resolved(h, source, destination, src, dst) && !Under(src, dst)
    requires CopyRecursive(h, source, destination, user, true, recursive).1.Done?
    ensures var after := CopyRecursive(h, source, destination, user, true, recursive).0.files;
            && (dst in h.files <==> |after| < |h.files|)
            && (dst !in h.files && Dir(dst) in h.files <==> |after| == |h.files|)
  {
    hide Canonical, Under, EnsureParents, CopyRecursive, CopyResult, TreeInv, Dir;
    AcceptedIsResult(h, source, destination, user, true, recursive, src, dst);
    GrownCount(h.files, dst);
    if dst in h.files {
      ParentInTree(h.files, dst);
      TakenCount(h.files, src, dst);
    } else {
      FreshCount(h.files, src, dst);
    }
  }

  // ---- onto an ancestor of the source ----

  /** The directories `/`, `/x`, `/x/y` and `/x/y/y`. */
  function Nested(x: string, y: string): Files {
    var a, b, c := Render([x]), Render([x, y]), Render([x, y, y]);
    map["/" := RootDirectory("/"), a := RootDirectory(a), b := RootDirectory(b), c := RootDirectory(c)]
  }

  lemma ChildPath(cs: seq<string>, c: string)
    requires ValidParts(cs) && ValidPart(c)
    ensures Canonical(Render(cs + [c])) && Parts(Render(cs + [c])) == cs + [c] && Render(cs + [c]) != "/"
    ensures Dir(Render(cs + [c])) == Render(cs) && Base(Render(cs + [c])) == c
    ensures JoinPath(Render(cs), c) == Render(cs + [c])
  {
    PartsRender(cs + [c]);
    NonRootParts(Render(cs + [c]));
    DirRender(cs + [c]);
    assert (cs + [c])[..|cs|] == cs;
    BaseRender(cs + [c]);
    JoinRender(cs, c);
  }

  lemma ChainApart(pa: seq<string>, pb: seq<string>, pc: seq<string>)
    requires ValidParts(pc) && [] < pa < pb < pc
    ensures var a, b, c := Render(pa), Render(pb), Render(pc);
            && a != "/" && b != "/" && c != "/" && a != b && a != c && b != c
            && !Under(c, "/") && !Under(c, a) && !Under(c, b)
  {
    assert ValidParts(pa) && ValidParts(pb) by {
      assert forall c | c in pa || c in pb :: c in pc;
    }
    NotUnderPrefix([], pa);
    NotUnderPrefix([], pb);
    NotUnderPrefix([], pc);
    NotUnderPrefix(pa, pb);
    NotUnderPrefix(pa, pc);
    NotUnderPrefix(pb, pc);
  }

  lemma NestedPaths(x: string, y: string)
    requires ValidPart(x) && ValidPart(y)
    ensures var a, b, c := Render([x]), Render([x, y]), Render([x, y, y]);
            && Canonical("/") && Canonical(a) && Canonical(b) && Canonical(c)
            && a != "/" && b != "/" && c != "/" && a != b && a != c && b != c
            && Dir(a) == "/" && Dir(b) == a && Dir(c) == b && JoinPath(a, Base(c)) == b
            && !Under(c, "/") && !Under(c, a) && !Under(c, b)
  {
    RootParts();
    assert [] + [x] == [x] && [x] + [y] == [x, y] && [x, y] + [y] == [x, y, y];
    ChildPath([], x);
    ChildPath([x], y);
    ChildPath([x, y], y);
    ChainApart([x], [x, y], [x, y, y]);
  }

  lemma NotUnderPrefix(a: seq<string>, b: seq<string>)
    requires ValidParts(b) && a < b
    ensures !Under(Render(b), Render(a)) && Render(b) != Render(a)
  {
    assert ValidParts(a) by { forall c | c in a ensures ValidPart(c) { assert c in b; } }
    UnderRender(b, a);
    UnderRender(b, b);
  }

  lemma NestedTree(x: string, y: string)
    requires ValidPart(x) && ValidPart(y)
    ensures TreeInv(Nested(x, y)) && |Nested(x, y)| == 4
  {
    NestedPaths(x, y);
    FourDirectories(Render([x]), Render([x, y]), Render([x, y, y]));
  }

  lemma FourDirectories(a: string, b: string, c: string)
    requires Canonical("/") && Canonical(a) && Canonical(b) && Canonical(c)
    requires a != "/" && b != "/" && c != "/" && a != b && a != c && b != c
    requires Dir(a) == "/" && Dir(b) == a && Dir(c) == b
    requires !Under(c, "/") && !Under(c, a) && !Under(c, b)
    ensures var files := map["/" := RootDirectory("/"), a := RootDirectory(a), b := RootDirectory(b), c := RootDirectory(c)];
            TreeInv(files) && |files| == 4
  {
    hide Canonical, Dir;
    var files := map["/" := RootDirectory("/"), a := RootDirectory(a), b := RootDirectory(b), c := RootDirectory(c)];
    assert Placed(files, "/") && Placed(files, a) && Placed(files, b) && Placed(files, c);
    assert files.Keys == {"/", a, b, c};
  }

  /** `/x/y/y` copied or moved into `/x`: the target is `/x/y`, and root is not refused. */
  lemma OntoAncestor(h: Host, x: string, y: string, move: bool)
    requires ValidPart(x) && ValidPart(y) && h.cwd == "/" && TreeInv(h.files)
    requires Render([x]) in h.files && h.files[Render([x])].directory && Render([x, y, y]) in h.files
    ensures var a, b, c := Render([x]), Render([x, y]), Render([x, y, y]);
            Resolved(h, c, a, c, b) && !Under(c, b) && CopyRecursive(h, c, a, "root", move, true).1.Done?
  {
    hide Dir, CopyRecursive, TreeInv, EnsureParents;
    NestedPaths(x, y);
    var a, b, c := Render([x]), Render([x, y]), Render([x, y, y]);
    NormalizeIdempotent(a, "/");
    NormalizeIdempotent(c, "/");
    CleanCanonical(a);
    CleanCanonical(c);
    assert Resolved(h, c, a, c, b);
    CopyDecision(h, c, a, "root", move, true, c, b);
  }

  /** `mv /x/y/y /x` on four directories resolves to the ancestor `/x/y` of its source,
      is accepted, and loses an inode. */
  lemma MoveOntoAncestorLoses(h: Host, x: string, y: string)
    requires ValidPart(x) && ValidPart(y) && h.cwd == "/" && h.files == Nested(x, y)
    ensures Canonical(h.cwd)
    ensures var (after, outcome) := CopyRecursive(h, Render([x, y, y]), Render([x]), "root", true, true);
            TreeInv(h.files) && |h.files| == 4 && outcome.Done? && |after.files| < 4
  {
    hide Canonical, Dir, CopyRecursive, TreeInv;
    NestedPaths(x, y);
    NestedTree(x, y);
    OntoAncestor(h, x, y, true);
    MoveExact(h, Render([x, y, y]), Render([x]), "root", true, Render([x, y, y]), Render([x, y]));
  }
}
