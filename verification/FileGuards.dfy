/** For every filesystem operation, accepted or refused: exactly when it keeps the tree. */
module FileGuards {
  import opened Text
  import opened Paths
  import opened Host
  import opened FileTree
  import opened FileMoves
  import opened FileTheorems
  import opened FileLimits
  import opened RegularMoves

  // ---- creating parents ----

  /** Creating the parents of a path keeps the tree exactly when there is none to create, or
      the existing entries on the way are directories. */
  lemma EnsureExact(files: Files, p: string)
    requires TreeInv(files) && Canonical(p)
    ensures TreeInv(EnsureParents(files, p)) <==> Dir(p) in files || AncestorsAreDirectories(files, p)
  {
    hide TreeInv, Canonical, Under, EnsureParents;
    var grown := EnsureParents(files, p);
    if Dir(p) in files {
      NothingToCreate(files, p);
    } else if AncestorsAreDirectories(files, p) {
      TreeEnsure(files, p);
    } else if TreeInv(grown) {
      var k :| k in files && Under(k, p) && k != p && !files[k].directory;
      TreeKeys(files);
      MissingParentCreated(files, p);
      EnsureParentsKeeps(files, p);
      RootPresent(files);
      ParentOf(p);
      UnderOfParent(k, p);
      AncestorsPresent(grown, Dir(p), k);
    }
  }

  // ---- copying ----

  lemma CarriedGrown(files: Files, src: string, dst: string, n: string)
    requires Canonical(src) && Canonical(dst) && !Under(src, dst) && n in files && n in EnsureParents(files, dst)
    requires EnsureParents(files, dst)[n] == files[n] && forall k | k in EnsureParents(files, dst) :: Canonical(k)
    ensures Carried(EnsureParents(files, dst), src, dst, n) == Carried(files, src, dst, n)
    decreases Before(files, n)
  {
    hide Canonical, Under, Renamed, EnsureParents;
    EnsureParentsKeeps(files, dst);
    var grown := EnsureParents(files, dst);
    if Lands(grown, src, dst, n) { GrownSubtrees(files, src, dst, Renamed(dst, src, n)); }
    if Lands(files, src, dst, n) && Less(Renamed(dst, src, n), n) {
      BeforeShrinks(files, Renamed(dst, src, n), n);
      CarriedGrown(files, src, dst, Renamed(dst, src, n));
    }
  }

  /** What is created for the target changes nothing about the room that the copy has. */
  lemma RoomGrown(files: Files, src: string, dst: string, move: bool)
    requires TreeInv(files) && src in files && Canonical(src) && Canonical(dst) && src != "/" && dst != "/" && !Under(src, dst)
    ensures RoomFor(EnsureParents(files, dst), src, dst, move) <==> RoomFor(files, src, dst, move)
  {
    hide Canonical, Under, Renamed, EnsureParents, TreeInv, Carried, Dir;
    TreeKeys(files);
    EnsureParentsKeeps(files, dst);
    EnsureParentsNoKeys(files, dst);
    var grown := EnsureParents(files, dst);
    forall n | n in grown && Under(src, n)
      ensures n in files && Carried(grown, src, dst, n) == Carried(files, src, dst, n)
    {
      GrownSubtrees(files, src, dst, n);
      CarriedGrown(files, src, dst, n);
    }
    forall k | k in grown && k != "/" && (Under(src, Dir(k)) || Under(dst, Dir(k))) ensures k in files {
      UnderOfParent(src, k);
      UnderOfParent(dst, k);
      GrownSubtrees(files, src, dst, k);
    }
    forall n | n in files && Under(src, n) ensures Under(dst, Renamed(src, dst, n)) { RenamedMeaning(src, dst, n); }
  }

  /** A target below a regular file that stays: the result is no tree. */
  lemma NotThroughRegular(files: Files, src: string, dst: string, move: bool)
    requires TreeInv(files) && src in files && Canonical(src) && Canonical(dst) && src != "/" && dst != "/" && !Under(src, dst)
    requires !AncestorsAreDirectories(files, dst)
    ensures !TreeInv(CopyResult(EnsureParents(files, dst), src, dst, move))
  {
    hide Canonical, Under, Renamed, EnsureParents, TreeInv, Carried, CopyResult;
    TreeKeys(files);
    EnsureParentsKeeps(files, dst);
    EnsureParentsNoKeys(files, dst);
    var grown := EnsureParents(files, dst);
    var after := CopyResult(grown, src, dst, move);
    var a :| a in files && Under(a, dst) && a != dst && !files[a].directory;
    if Under(src, a) { UnderTransitive(src, a, dst); }
    if Under(dst, a) { UnderParts(a, dst); UnderParts(dst, a); }
    CopyResultMeaning(grown, src, dst, move, a);
    SelfUnder(dst);
    RenamedSource(src, dst);
    RenamedBack(src, dst, src, dst);
    CopyResultMeaning(grown, src, dst, move, dst);
    if TreeInv(after) { AncestorsPresent(after, dst, a); }
  }

  /** An accepted copy or move, of a file or a directory, onto any target that is not below
      the source: it keeps the tree exactly when the existing entries on the way to the
      target are directories and every regular file comes to lie where nothing is below it. */
  lemma CopyExact(h: Host, source: string, destination: string, user: string, move: bool, recursive: bool, src: string, dst: string)
    requires TreeInv(h.files) && Resolved(h, source, destination, src, dst) && !Under(src, dst)
    requires CopyRecursive(h, source, destination, user, move, recursive).1.Done?
    ensures TreeInv(CopyRecursive(h, source, destination, user, move, recursive).0.files)
       <==> AncestorsAreDirectories(h.files, dst) && RoomFor(h.files, src, dst, move)
  {
    hide Canonical, Under, EnsureParents, TreeInv, CopyRecursive, CopyResult, RoomFor, AncestorsAreDirectories, Dir;
    AcceptedIsResult(h, source, destination, user, move, recursive, src, dst);
    if AncestorsAreDirectories(h.files, dst) {
      TreeEnsure(h.files, dst);
      SourceStays(h.files, src, dst);
      RoomGrown(h.files, src, dst, move);
      CopyTreeExact(EnsureParents(h.files, dst), src, dst, move);
    } else {
      NotThroughRegular(h.files, src, dst, move);
    }
  }

  /** `cp -r` of a directory outside its own ancestors: nothing may be below the places
      where its regular files land. */
  lemma CopyApartExact(h: Host, source: string, destination: string, user: string, move: bool, recursive: bool, src: string, dst: string)
    requires TreeInv(h.files) && Resolved(h, source, destination, src, dst) && Disjoint(src, dst)
    requires CopyRecursive(h, source, destination, user, move, recursive).1.Done?
    ensures TreeInv(CopyRecursive(h, source, destination, user, move, recursive).0.files)
       <==> AncestorsAreDirectories(h.files, dst)
            && forall k | k in h.files && Under(src, k) && !h.files[k].directory :: !HasChildren(h.files, Renamed(src, dst, k))
  {
    hide Canonical, Under, TreeInv, CopyRecursive, RoomFor, AncestorsAreDirectories, HasChildren, Renamed;
    AcceptedIsResult(h, source, destination, user, move, recursive, src, dst);
    CopyExact(h, source, destination, user, move, recursive, src, dst);
    DisjointRoom(h.files, src, dst, move);
  }

  // ---- every operation ----

  /** A write to a new path either finds directories on its way, or is refused with nothing to create. */
  ghost predicate CreateGuard(h: Host, p: string, user: string) {
    AncestorsAreDirectories(h.files, p) || (Dir(p) in h.files && !CanWrite(h, h.files[Dir(p)], user))
  }

  ghost predicate CopyGuard(h: Host, user: string, move: bool, recursive: bool, src: string, dst: string)
    requires Canonical(dst)
  {
    CopyStarted(h, user, move, recursive, src, dst) ==>
      if !CopyAllowed(h, user, move, recursive, src, dst) then Dir(dst) in h.files || AncestorsAreDirectories(h.files, dst)
      else if Under(src, dst) then move
      else AncestorsAreDirectories(h.files, dst) && RoomFor(h.files, src, dst, move)
  }

  /** What the caller can look up beforehand. */
  ghost predicate Guarded(h: Host, op: FileOp, user: string)
    requires Canonical(h.cwd)
  {
    match op
    case Write(name, _, _) =>
      name != "" && Normalized(h, name).path !in h.files ==> CreateGuard(h, Normalized(h, name).path, user)
    case TouchOp(name) =>
      name != "" && Normalized(h, name).path !in h.files ==> CreateGuard(h, Normalized(h, name).path, user)
    case MakeDirOp(name) =>
      name != "" ==>
        var p := Normalized(h, name).path;
        p !in h.files && CanWrite(h, Lookup(h.files, Dir(p)), user) ==> Dir(p) in h.files && h.files[Dir(p)].directory
    case MakeDirAllOp(_) => true
    case RemoveOp(_) => true
    case CopyOp(source, destination, move, recursive) =>
      source != "" && destination != "" && Normalized(h, source).path != "/" ==>
        var src := Normalized(h, source).path;
        TargetCanonical(h.files, src, Normalized(h, destination).path);
        CopyGuard(h, user, move, recursive, src, Target(h.files, src, Normalized(h, destination).path))
  }

  lemma CreateGuardExact(h: Host, p: string, f: File, user: string)
    requires TreeInv(h.files) && Canonical(p) && p !in h.files && f.path == p
    ensures TreeInv(Create(h, p, f, user).0.files) <==> CreateGuard(h, p, user)
  {
    hide TreeInv, Canonical, EnsureParents, AncestorsAreDirectories, CanWrite, Dir;
    if Create(h, p, f, user).1.Done? {
      CreateExact(h, p, f, user);
      EnsureParentsKeeps(h.files, p);
    } else {
      EnsureExact(h.files, p);
      EnsureParentsKeeps(h.files, p);
      if AncestorsAreDirectories(h.files, p) { TreeEnsure(h.files, p); }
    }
  }

  lemma CreationExact(h: Host, op: FileOp, user: string)
    requires TreeInv(h.files) && Canonical(h.cwd) && (op.Write? || op.TouchOp?)
    ensures TreeInv(Apply(h, op, user).0.files) <==> Guarded(h, op, user)
  {
    hide TreeInv, Canonical, NormalizePath, Create, Overwrite, CreateGuard, CanWrite, Dir, PrimaryGroup;
    if op.name != "" {
      var p := Normalized(h, op.name).path;
      if p !in h.files {
        CreateGuardExact(h, p, NewRegular(h, p, user).(content := if op.Write? then op.content else ""), user);
      } else if op.Write? {
        OverwriteKeepsTree(h, p, op.content, user, op.append);
      }
    }
  }

  /** A copy of a regular file below itself, which only a move survives. */
  lemma BelowItselfExact(h: Host, source: string, destination: string, user: string, move: bool, recursive: bool, src: string, dst: string)
    requires TreeInv(h.files) && Resolved(h, source, destination, src, dst) && Under(src, dst) && Canonical(src) && Canonical(dst)
    requires CopyAllowed(h, user, move, recursive, src, dst)
    ensures TreeInv(CopyRecursive(h, source, destination, user, move, recursive).0.files) <==> move
  {
    hide Canonical, Under, EnsureParents, TreeInv, CopyRecursive, CopyInto, Placement, CanRead, CanWrite, Dir;
    CopyDecision(h, source, destination, user, move, recursive, src, dst);
    SourceStays(h.files, src, dst);
    var grown := EnsureParents(h.files, dst);
    RegularInto(grown, src, dst, move);
    if move {
      PlacementBelowItself(h.files, src, dst);
      RemoveKeepsTree(h.files, src);
      RegularRemoval(h.files, src);
    } else {
      PlacedBelow(grown, src, dst);
    }
  }

  lemma PlacedBelow(files: Files, src: string, dst: string)
    requires src in files && !files[src].directory && Under(src, dst) && dst != src && Canonical(src)
    ensures !TreeInv(Placement(files, src, dst, false))
  {
    hide Canonical, Under, TreeInv;
    var after := Placement(files, src, dst, false);
    if TreeInv(after) { AncestorsPresent(after, dst, src); }
  }

  lemma CopyOpExact(h: Host, source: string, destination: string, user: string, move: bool, recursive: bool, src: string, dst: string)
    requires TreeInv(h.files) && Resolved(h, source, destination, src, dst) && Canonical(src) && Canonical(dst)
    ensures TreeInv(CopyRecursive(h, source, destination, user, move, recursive).0.files)
       <==> CopyGuard(h, user, move, recursive, src, dst)
  {
    hide Canonical, Under, EnsureParents, TreeInv, CopyRecursive, CopyInto, CanRead, CanWrite, Dir, RoomFor, AncestorsAreDirectories, CopyAllowed;
    CopyDecision(h, source, destination, user, move, recursive, src, dst);
    if CopyAllowed(h, user, move, recursive, src, dst) {
      AllowedStarted(h, user, move, recursive, src, dst);
      if Under(src, dst) {
        BelowItselfExact(h, source, destination, user, move, recursive, src, dst);
      } else {
        CopyExact(h, source, destination, user, move, recursive, src, dst);
      }
    } else {
      EnsureExact(h.files, dst);
    }
  }

  lemma AllowedStarted(h: Host, user: string, move: bool, recursive: bool, src: string, dst: string)
    requires Canonical(dst) && CopyAllowed(h, user, move, recursive, src, dst)
    ensures CopyStarted(h, user, move, recursive, src, dst)
  {}

  /** Every filesystem operation, by any user, accepted or refused, keeps the tree exactly
      when its guard holds. */
  lemma ApplyExact(h: Host, op: FileOp, user: string)
    requires TreeInv(h.files) && Canonical(h.cwd)
    ensures TreeInv(Apply(h, op, user).0.files) <==> Guarded(h, op, user)
  {
    hide TreeInv, Canonical, NormalizePath, WriteFile, Touch, MakeDirAll, Remove, CopyRecursive, CopyGuard, CanWrite, Dir, PrimaryGroup, Target;
    match op
    case Write(_, _, _) => CreationExact(h, op, user);
    case TouchOp(_) => CreationExact(h, op, user);
    case MakeDirOp(name) => MakeDirExact(h, name, user);
    case MakeDirAllOp(name) => MakeDirAllKeepsTree(h, name, user);
    case RemoveOp(name) => RemovalKeepsTree(h, name, user);
    case CopyOp(source, destination, move, recursive) =>
      if source != "" && destination != "" && Normalized(h, source).path != "/" {
        var src := Normalized(h, source).path;
        var dst := Target(h.files, src, Normalized(h, destination).path);
        TargetCanonical(h.files, src, Normalized(h, destination).path);
        CopyOpExact(h, source, destination, user, move, recursive, src, dst);
      } else {
        NotCopied(h, source, destination, user, move, recursive);
      }
  }

  lemma NotCopied(h: Host, source: string, destination: string, user: string, move: bool, recursive: bool)
    requires Canonical(h.cwd) && (source == "" || destination == "" || Normalized(h, source).path == "/")
    ensures CopyRecursive(h, source, destination, user, move, recursive).0 == h
  {
    hide Canonical, NormalizePath, CopyInto, EnsureParents, Target, Dir, Under, CanRead, CanWrite;
  }

  // ---- onto an ancestor of the source ----

  /** The four directories, and a regular file `/x/y/y/y`. */
  function NestedFile(x: string, y: string): Files {
    var d := Render([x, y, y, y]);
    Nested(x, y)[d := File(d, "", "root", "root", 0x1a4, "", false)]
  }

  lemma NestedFilePaths(x: string, y: string)
    requires ValidPart(x) && ValidPart(y)
    ensures var a, b, c, d := Render([x]), Render([x, y]), Render([x, y, y]), Render([x, y, y, y]);
            && Canonical(d) && d != "/" && d != a && d != b && d != c
            && !Under(d, "/") && !Under(d, a) && !Under(d, b) && !Under(d, c)
            && Dir(d) == c && Under(c, d) && Renamed(c, b, d) == c
  {
    hide Canonical, Under, Dir, Base, JoinPath, Clean, Render, Renamed;
    assert [x, y, y] + [y] == [x, y, y, y] && [x, y] + [y] == [x, y, y];
    ChildPath([x, y, y], y);
    RenamedRender([x, y, y], [x, y], [y]);
    RootParts();
    NotUnderPrefix([x], [x, y, y, y]);
    NotUnderPrefix([x, y], [x, y, y, y]);
    NotUnderPrefix([x, y, y], [x, y, y, y]);
    NotUnderRoot([x, y, y, y]);
  }

  lemma NotUnderRoot(cs: seq<string>)
    requires ValidParts(cs) && cs != []
    ensures !Under(Render(cs), "/")
  {
    NotUnderPrefix([], cs);
  }

  /** One landing further down there is nothing. */
  lemma DeeperIsFree(x: string, y: string, files: Files)
    requires ValidPart(x) && ValidPart(y) && forall k | k in files && Under(Render([x, y, y, y]), k) :: k == Render([x, y, y, y])
    ensures !Lands(files, Render([x, y, y]), Render([x, y]), Render([x, y, y, y]))
  {
    hide Canonical, Clean, Render, Renamed, Under;
    var cs := [x, y, y, y];
    assert [x, y] + [y, y] == cs && [x, y, y] + [y, y] == cs + [y];
    RenamedRender([x, y], [x, y, y], [y, y]);
    UnderRender(cs, cs + [y]);
    if Render(cs + [y]) == Render(cs) { RenderInjective(cs + [y], cs); }
  }

  lemma NestedFileTree(files: Files, c: string, d: string)
    requires TreeInv(files) && c in files && files[c].directory && Canonical(d) && d != "/" && d !in files && Dir(d) == c
    requires forall k | k in files :: !Under(d, k)
    ensures TreeInv(files[d := File(d, "", "root", "root", 0x1a4, "", false)])
    ensures forall k | k in files[d := File(d, "", "root", "root", 0x1a4, "", false)] && Under(d, k) :: k == d
  {
    hide TreeInv, Canonical, Dir, Under;
    TreeAdd(files, d, File(d, "", "root", "root", 0x1a4, "", false));
  }

  /** `cp -r /x/y/y /x` is accepted although it puts the regular file `/x/y/y/y` in place of
      the directory that it lies in. */
  lemma CopyOntoAncestorBreaks(h: Host, x: string, y: string)
    requires ValidPart(x) && ValidPart(y) && h.cwd == "/" && h.files == NestedFile(x, y)
    ensures Canonical(h.cwd)
    ensures var (after, outcome) := CopyRecursive(h, Render([x, y, y]), Render([x]), "root", false, true);
            TreeInv(h.files) && outcome.Done? && !TreeInv(after.files)
  {
    hide TreeInv, CopyRecursive, Canonical, Dir, Base, JoinPath, Renamed, Under, Lands, Render;
    var a, b, c, d := Render([x]), Render([x, y]), Render([x, y, y]), Render([x, y, y, y]);
    NestedPaths(x, y);
    NestedTree(x, y);
    NestedFilePaths(x, y);
    NestedFileTree(Nested(x, y), c, d);
    OntoAncestor(h, x, y, false);
    CopyExact(h, c, a, "root", false, true, c, b);
    DeeperIsFree(x, y, h.files);
    NoRoom(h.files, c, b, d);
  }

  /** A regular file that lands on the directory it lies in has no room there. */
  lemma NoRoom(files: Files, src: string, dst: string, n: string)
    requires n in files && !files[n].directory && Under(src, n) && !Lands(files, src, dst, n)
    requires n != "/" && Dir(n) == Renamed(src, dst, n)
    ensures !RoomFor(files, src, dst, false)
  {
    hide Under, Renamed, Lands, Dir;
    assert Carried(files, src, dst, n) == files[n];
  }
}
