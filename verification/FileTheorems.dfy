/** What an accepted copy or move leaves, and which operations keep the tree by themselves. */
module FileTheorems {
  import opened Text
  import opened Paths
  import opened Host
  import opened FileTree
  import opened FileMoves

  // ---- copying on a tree ----

  /** The resolved source and target of a copy. */
  ghost predicate Resolved(h: Host, source: string, destination: string, src: string, dst: string) {
    && Canonical(h.cwd) && source != "" && destination != ""
    && Normalized(h, source) == Ok(src) && src != "/"
    && dst == Target(h.files, src, Normalized(h, destination).path)
  }

  lemma ResolvedCanonical(h: Host, source: string, destination: string, src: string, dst: string)
    requires TreeInv(h.files) && Resolved(h, source, destination, src, dst)
    ensures Canonical(src) && Canonical(dst) && dst != "/"
  {
    var d := Normalized(h, destination).path;
    TargetCanonical(h.files, src, d);
    NonRootParts(src);
    var cs := Parts(src);
    var last := cs[|cs| - 1];
    assert ValidPart(last);
    BaseRender(cs);
    JoinRender(Parts(d), last);
    PartsRender(Parts(d) + [last]);
    NonRootParts(Render(Parts(d) + [last]));
  }

  /** Creating the target's parents leaves both subtrees as they were. */
  lemma GrownSubtrees(files: Files, src: string, dst: string, k: string)
    requires Canonical(src) && Canonical(dst) && Canonical(k) && !Under(src, dst)
    requires Under(src, k) || Under(dst, k)
    ensures k in EnsureParents(files, dst) <==> k in files
    ensures k in files ==> EnsureParents(files, dst)[k] == files[k]
  {
    EnsureParentsMeaning(files, dst, k);
    if Under(k, dst) && k != dst {
      if Under(src, k) { UnderTransitive(src, k, dst); } else { UnderParts(k, dst); UnderParts(dst, k); }
    }
  }

  lemma SourceStays(files: Files, src: string, dst: string)
    requires Canonical(dst) && src in files
    ensures src in EnsureParents(files, dst) && EnsureParents(files, dst)[src] == files[src]
  {
    EnsureParentsKeeps(files, dst);
  }

  lemma CopyIntoIsResult(files: Files, src: string, dst: string, move: bool)
    requires (forall n | n in files :: Canonical(n)) && src in files
    requires Canonical(src) && Canonical(dst) && src != "/" && dst != "/" && dst != src
    requires files[src].directory || forall n | n in files && Under(src, n) :: n == src
    ensures CopyInto(files, files[src], src, dst, move) == CopyResult(files, src, dst, move)
  {
    hide Canonical, Under, Copied, CopyEntries;
    SubtreeNamesExtend(files, src);
    if files[src].directory {
      CopyIsCopied(files, src, dst);
    } else {
      SingleIsCopied(files, src, dst);
    }
  }

  lemma SelfUnder(p: string)
    ensures Under(p, p)
  {}

  /** What the writing half leaves on the grown map, for a target that is not below the source. */
  lemma GrownIsResult(files: Files, src: string, dst: string, move: bool)
    requires TreeInv(files) && src in files && Canonical(src) && Canonical(dst) && src != "/" && dst != "/" && !Under(src, dst)
    ensures src in EnsureParents(files, dst) && EnsureParents(files, dst)[src] == files[src]
    ensures CopyInto(EnsureParents(files, dst), files[src], src, dst, move) == CopyResult(EnsureParents(files, dst), src, dst, move)
  {
    hide Canonical, Under, EnsureParents, TreeInv, CopyInto, CopyResult;
    TreeKeys(files);
    EnsureParentsNoKeys(files, dst);
    SourceStays(files, src, dst);
    SelfUnder(src);
    var grown := EnsureParents(files, dst);
    forall n | n in grown && Under(src, n) && !files[src].directory ensures n == src {
      GrownSubtrees(files, src, dst, n);
      NothingBelowRegular(files, src, n);
    }
    CopyIntoIsResult(grown, src, dst, move);
  }

  /** The checks before anything is written. */
  ghost predicate CopyStarted(h: Host, user: string, move: bool, recursive: bool, src: string, dst: string) {
    && src in h.files && dst != src
    && (h.files[src].directory ==> (move || recursive) && !Under(src, dst))
    && CanRead(h, h.files[src], user)
  }

  ghost predicate CopyAllowed(h: Host, user: string, move: bool, recursive: bool, src: string, dst: string)
    requires Canonical(dst)
  {
    var grown := EnsureParents(h.files, dst);
    && CopyStarted(h, user, move, recursive, src, dst)
    && CanWrite(h, Lookup(grown, Dir(dst)), user)
    && (dst in grown ==> CanWrite(h, grown[dst], user))
  }

  /** A copy or move writes all the entries, or stops before writing any; the target's
      parents are created before the last checks. */
  lemma CopyDecision(h: Host, source: string, destination: string, user: string,
                     move: bool, recursive: bool, src: string, dst: string)
    requires Resolved(h, source, destination, src, dst) && Canonical(src) && Canonical(dst)
    ensures var (after, outcome) := CopyRecursive(h, source, destination, user, move, recursive);
            var grown := EnsureParents(h.files, dst);
            if CopyAllowed(h, user, move, recursive, src, dst) then
              outcome.Done? && after.files == CopyInto(grown, h.files[src], src, dst, move)
            else
              outcome.Failed? && after.files == if CopyStarted(h, user, move, recursive, src, dst) then grown else h.files
  {
    hide Canonical, Dir, EnsureParents, CopyInto, Normalized, NormalizePath, Target, Under;
  }

  /** An accepted copy or move whose target is not below its source. */
  lemma AcceptedIsResult(h: Host, source: string, destination: string, user: string,
                          move: bool, recursive: bool, src: string, dst: string)
    requires TreeInv(h.files) && Resolved(h, source, destination, src, dst) && !Under(src, dst)
    requires CopyRecursive(h, source, destination, user, move, recursive).1.Done?
    ensures src in h.files && Canonical(src) && Canonical(dst) && dst != "/"
    ensures CopyRecursive(h, source, destination, user, move, recursive).0.files
         == CopyResult(EnsureParents(h.files, dst), src, dst, move)
  {
    hide Canonical, Under, EnsureParents, CopyRecursive, CopyInto, TreeInv, CopyResult;
    ResolvedCanonical(h, source, destination, src, dst);
    CopyDecision(h, source, destination, user, move, recursive, src, dst);
    GrownIsResult(h.files, src, dst, move);
  }

  /** Apart from the source: the old subtree laid over the grown map. */
  lemma CopyIsOverlayOnTree(h: Host, source: string, destination: string, user: string,
                            move: bool, recursive: bool, src: string, dst: string)
    requires TreeInv(h.files) && Resolved(h, source, destination, src, dst) && Disjoint(src, dst)
    requires CopyRecursive(h, source, destination, user, move, recursive).1.Done?
    ensures src in h.files && Canonical(src) && Canonical(dst) && dst != "/"
    ensures CopyRecursive(h, source, destination, user, move, recursive).0.files
         == (var overlay := Overlay(EnsureParents(h.files, dst), src, dst);
             if move then WithoutSubtree(overlay, src) else overlay)
  {
    hide Canonical, Under, EnsureParents, CopyRecursive, TreeInv, Copied, Overlay;
    AcceptedIsResult(h, source, destination, user, move, recursive, src, dst);
    TreeKeys(h.files);
    EnsureParentsNoKeys(h.files, dst);
    CopiedIsOverlay(EnsureParents(h.files, dst), src, dst);
  }

  // ---- the invariant, operation by operation ----

  datatype FileOp =
    | Write(name: string, content: string, append: bool)
    | TouchOp(name: string)
    | MakeDirOp(name: string)
    | MakeDirAllOp(name: string)
    | RemoveOp(name: string)
    | CopyOp(source: string, destination: string, move: bool, recursive: bool)

  ghost function Apply(h: Host, op: FileOp, user: string): (r: (Host, Outcome))
    requires Canonical(h.cwd)
    ensures r.0 == h.(files := r.0.files)
  {
    match op
    case Write(name, content, append) => WriteFile(h, name, content, user, append)
    case TouchOp(name) => Touch(h, name, user)
    case MakeDirOp(name) => MakeDir(h, name, user)
    case MakeDirAllOp(name) => MakeDirAll(h, name, user)
    case RemoveOp(name) => Remove(h, name, user)
    case CopyOp(source, destination, move, recursive) => CopyRecursive(h, source, destination, user, move, recursive)
  }

  lemma {:induction false} MakeDirsTree(h: Host, parts: seq<string>, i: nat, user: string)
    requires TreeInv(h.files) && ValidParts(parts) && i <= |parts|
    requires Render(parts[..i]) in h.files && h.files[Render(parts[..i])].directory
    ensures TreeInv(MakeDirs(h, parts, i, user).0.files)
    decreases |parts| - i
  {
    hide TreeInv, Dir, Canonical, CanWrite, PrimaryGroup, Render;
    if i < |parts| {
      var cs := parts[..i + 1];
      assert forall c | c in cs :: c in parts;
      var current := Render(cs);
      PartsRender(cs);
      DirRender(cs);
      assert cs[..i] == parts[..i];
      if current in h.files {
        if h.files[current].directory { MakeDirsTree(h, parts, i + 1, user); }
      } else if CanWrite(h, Lookup(h.files, Dir(current)), user) {
        var f := NewDirectory(h, current, user);
        TreeAdd(h.files, current, f);
        MakeDirsTree(h.(files := h.files[current := f]), parts, i + 1, user);
      }
    }
  }

  lemma CreateKeepsTree(h: Host, p: string, f: File, user: string)
    requires TreeInv(h.files) && Canonical(p) && p !in h.files && AncestorsAreDirectories(h.files, p) && f.path == p
    ensures TreeInv(Create(h, p, f, user).0.files)
  {
    hide TreeInv, Canonical, Dir, AncestorsAreDirectories, EnsureParents, CanWrite;
    TreeEnsure(h.files, p);
    TreeAdd(EnsureParents(h.files, p), p, f);
  }

  lemma RemoveKeepsTree(files: Files, p: string)
    requires TreeInv(files) && p in files && p != "/"
    ensures TreeInv(WithoutSubtree(files, p))
    ensures !files[p].directory ==> files - {p} == WithoutSubtree(files, p)
  {
    TreeKeys(files);
    WithoutSubtreeTree(files, p);
    if !files[p].directory { RegularRemoval(files, p); }
  }

  /** mkdir -p needs no guard: it checks every component itself. */
  lemma MakeDirAllKeepsTree(h: Host, name: string, user: string)
    requires TreeInv(h.files) && Canonical(h.cwd)
    ensures TreeInv(MakeDirAll(h, name, user).0.files)
  {
    hide TreeInv, NormalizePath, Split, WithoutSlash, Render, ValidParts, Canonical, Parts;
    if name != "" {
      var p := Normalized(h, name).path;
      if p != "/" {
        SplitParts(p);
        FromRoot(h.files, p);
        MakeDirsTree(h, Parts(p), 0, user);
      } else {
        RootPresent(h.files);
      }
    }
  }

  /** No component leads to the root. */
  lemma FromRoot(files: Files, p: string)
    requires TreeInv(files) && Canonical(p)
    ensures ValidParts(Parts(p)) && Render(Parts(p)[..0]) in files && files[Render(Parts(p)[..0])].directory
  {
    assert Parts(p)[..0] == [];
  }

  /** Neither does removal: it takes the whole subtree and never the root. */
  lemma RemovalKeepsTree(h: Host, name: string, user: string)
    requires TreeInv(h.files) && Canonical(h.cwd)
    ensures TreeInv(Remove(h, name, user).0.files)
  {
    hide TreeInv, Canonical, Dir, CanWrite, WithoutSubtree;
    if name != "" {
      var p := Normalized(h, name).path;
      if p in h.files && p != "/" { RemoveKeepsTree(h.files, p); }
    }
  }

  lemma ContentKeepsTree(files: Files, p: string, text: string)
    requires TreeInv(files) && p in files
    ensures TreeInv(files[p := files[p].(content := text)])
  {
    var g := files[p := files[p].(content := text)];
    forall k | k in g ensures Placed(g, k) { assert Placed(files, k); }
  }

  lemma OverwriteKeepsTree(h: Host, p: string, content: string, user: string, append: bool)
    requires TreeInv(h.files) && p in h.files
    ensures TreeInv(Overwrite(h, p, content, user, append).0.files)
  {
    ContentKeepsTree(h.files, p, if append then h.files[p].content + content else content);
  }

  lemma RegularRemoval(files: Files, p: string)
    requires TreeInv(files) && p in files && !files[p].directory
    ensures files - {p} == WithoutSubtree(files, p)
  {
    TreeKeys(files);
    forall k | k in files && Under(p, k) ensures k == p { NothingBelowRegular(files, p, k); }
    UnderParts(p, p);
  }
}
