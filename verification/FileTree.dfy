/** The virtual filesystem: what each operation of internal/system/state.go does
    to the path-keyed map of files, and the tree it keeps. */
module FileTree {
  import opened Text
  import opened Paths
  import opened Host

  type Files = map<string, File>

  // ---- operations ----

  function RootDirectory(p: string): File { File(p, "", "root", "root", 0x1ed, "", true) }

  function NewRegular(h: Host, p: string, user: string): File {
    File(p, "", user, PrimaryGroup(h, user), 0x1a4, "", false)
  }

  function NewDirectory(h: Host, p: string, user: string): File {
    File(p, "", user, PrimaryGroup(h, user), 0x1ed, "", true)
  }

  /** ensureParents: walk up from the file, creating what is missing. */
  function EnsureParents(files: Files, p: string): Files
    requires Canonical(p)
    decreases |Parts(p)|
  {
    ParentOf(p);
    var d := Dir(p);
    if d == "/" then files
    else EnsureParents(if d in files then files else files[d := RootDirectory(d)], d)
  }

  function Normalized(h: Host, name: string): (r: PathResult)
    requires Canonical(h.cwd)
    ensures r == NormalizePath(name, h.cwd)
    ensures r.Ok? <==> name != ""
    ensures r.Ok? ==> Canonical(r.path)
    ensures !r.Ok? ==> r.EmptyPath?
  {
    if name != "" then NormalizeMeaning(name, h.cwd); NormalizePath(name, h.cwd)
    else NormalizePath(name, h.cwd)
  }

  /** A new entry: the missing parents first, and only then the permission check. */
  function Create(h: Host, p: string, f: File, user: string): (r: (Host, Outcome))
    requires Canonical(p)
    ensures r.0 == h.(files := r.0.files)
  {
    var grown := EnsureParents(h.files, p);
    if !CanWrite(h, Lookup(grown, Dir(p)), user) then (h.(files := grown), Failed(PermissionDenied))
    else (h.(files := grown[p := f]), Done)
  }

  /** Replace (or extend) the content of an entry, a directory's included. */
  function Overwrite(h: Host, p: string, content: string, user: string, append: bool): (r: (Host, Outcome))
    requires p in h.files
    ensures r.0 == h.(files := r.0.files)
  {
    if !CanWrite(h, h.files[p], user) then (h, Failed(PermissionDenied))
    else
      var text := if append then h.files[p].content + content else content;
      (h.(files := h.files[p := h.files[p].(content := text)]), Done)
  }

  function WriteFile(h: Host, name: string, content: string, user: string, append: bool): (r: (Host, Outcome))
    requires Canonical(h.cwd)
    ensures r.0 == h.(files := r.0.files)
  {
    var n := Normalized(h, name);
    if !n.Ok? then (h, Failed(PathEmpty))
    else if n.path in h.files then Overwrite(h, n.path, content, user, append)
    else Create(h, n.path, NewRegular(h, n.path, user).(content := content), user)
  }

  function Touch(h: Host, name: string, user: string): (r: (Host, Outcome))
    requires Canonical(h.cwd)
    ensures r.0 == h.(files := r.0.files)
  {
    var n := Normalized(h, name);
    if !n.Ok? then (h, Failed(PathEmpty))
    else if n.path in h.files then (h, Done)
    else Create(h, n.path, NewRegular(h, n.path, user), user)
  }

  function MakeDir(h: Host, name: string, user: string): (r: (Host, Outcome))
    requires Canonical(h.cwd)
    ensures r.0 == h.(files := r.0.files)
  {
    var n := Normalized(h, name);
    if !n.Ok? then (h, Failed(PathEmpty))
    else
      var p := n.path;
      if p in h.files then (h, Failed(FileExists))
      else if !CanWrite(h, Lookup(h.files, Dir(p)), user) then (h, Failed(PermissionDenied))
      else (h.(files := h.files[p := NewDirectory(h, p, user)]), Done)
  }

  /** The loop of MakeDirAll over the components from `i` on. */
  function MakeDirs(h: Host, parts: seq<string>, i: nat, user: string): (r: (Host, Outcome))
    requires i <= |parts|
    ensures r.0 == h.(files := r.0.files)
    decreases |parts| - i
  {
    if i == |parts| then (h, Done)
    else
      var current := Render(parts[..i + 1]);
      if current in h.files then
        if h.files[current].directory then MakeDirs(h, parts, i + 1, user)
        else (h, Failed(NotADirectory))
      else if !CanWrite(h, Lookup(h.files, Dir(current)), user) then (h, Failed(PermissionDenied))
      else MakeDirs(h.(files := h.files[current := NewDirectory(h, current, user)]), parts, i + 1, user)
  }

  /** strings.TrimPrefix(p, "/"). */
  function WithoutSlash(p: string): string { if "/" <= p then p[1..] else p }

  function MakeDirAll(h: Host, name: string, user: string): (r: (Host, Outcome))
    requires Canonical(h.cwd)
    ensures r.0 == h.(files := r.0.files)
  {
    var n := Normalized(h, name);
    if !n.Ok? then (h, Failed(PathEmpty))
    else if n.path in h.files then
      if h.files[n.path].directory then (h, Done) else (h, Failed(FileExists))
    else MakeDirs(h, Split(WithoutSlash(n.path)), 0, user)
  }

  /** The map without `p` and everything below it. */
  function WithoutSubtree(files: Files, p: string): Files {
    map k | k in files && !Under(p, k) :: files[k]
  }

  function Remove(h: Host, name: string, user: string): (r: (Host, Outcome))
    requires Canonical(h.cwd)
    ensures r.0 == h.(files := r.0.files)
  {
    var n := Normalized(h, name);
    if !n.Ok? then (h, Failed(PathEmpty))
    else
      var p := n.path;
      if p !in h.files then (h, Failed(NotFound))
      else if p == "/" then (h, Failed(VirtualRoot))
      else if !CanWrite(h, Lookup(h.files, Dir(p)), user) then (h, Failed(PermissionDenied))
      else if h.files[p].directory then (h.(files := WithoutSubtree(h.files, p)), Done)
      else (h.(files := h.files - {p}), Done)
  }

  /** The destination after "an existing directory receives a child". */
  function Target(files: Files, src: string, dst: string): string {
    if dst in files && files[dst].directory then JoinPath(dst, Base(src)) else dst
  }

  function SubtreeKeys(files: Files, src: string): set<string> {
    set k | k in files && Under(src, k)
  }

  /** The copying loop: entries are read from the map being written. */
  function CopyEntries(files: Files, names: seq<string>, src: string, dst: string): Files
    requires forall n | n in names :: n in files && src <= n
    decreases |names|
  {
    if names == [] then files
    else
      assert names[0] in names && forall n | n in names[1..] :: n in names;
      var key := Clean(dst + "/" + names[0][|src|..]);
      CopyEntries(files[key := files[names[0]].(path := key)], names[1..], src, dst)
  }

  lemma SubtreeNamesExtend(files: Files, src: string)
    ensures forall n | n in Sorted(SubtreeKeys(files, src)) :: n in files && src <= n
  {
    forall n | n in Sorted(SubtreeKeys(files, src)) ensures src <= n {
      assert n in SubtreeKeys(files, src);
    }
  }

  /** The writing half of CopyRecursive, once nothing refuses it. */
  function CopyInto(files: Files, file: File, src: string, dst: string, move: bool): Files {
    SubtreeNamesExtend(files, src);
    var copied :=
      if !file.directory then files[dst := file.(path := dst)]
      else CopyEntries(files, Sorted(SubtreeKeys(files, src)), src, dst);
    if move then WithoutSubtree(copied, src) else copied
  }

  function CopyRecursive(h: Host, source: string, destination: string, user: string,
                         move: bool, recursive: bool): (r: (Host, Outcome))
    requires Canonical(h.cwd)
    ensures r.0 == h.(files := r.0.files)
  {
    var n, m := Normalized(h, source), Normalized(h, destination);
    if !n.Ok? || !m.Ok? then (h, Failed(PathEmpty))
    else
      var src := n.path;
      if src !in h.files then (h, Failed(NotFound))
      else
        var file := h.files[src];
        if file.directory && !move && !recursive then (h, Failed(OmittingDirectory))
        else if src == "/" then (h, Failed(VirtualRoot))
        else if !CanRead(h, file, user) && user != "root" then (h, Failed(PermissionDenied))
        else
          TargetCanonical(h.files, src, m.path);
          var dst := Target(h.files, src, m.path);
          if dst == src then (h, Failed(SameFile))
          else if file.directory && Under(src, dst) then (h, Failed(IntoItself))
          else
            var grown := EnsureParents(h.files, dst);
            if user != "root" && !CanWrite(h, Lookup(grown, Dir(dst)), user) then
              (h.(files := grown), Failed(PermissionDenied))
            else if dst in grown && user != "root" && !CanWrite(h, grown[dst], user) then
              (h.(files := grown), Failed(PermissionDenied))
            else
              (h.(files := CopyInto(grown, file, src, dst, move)), Done)
  }

  // ---- the tree ----

  /** An entry in its place: a canonical key that is the entry's own path, below
      a directory unless it is the root. */
  ghost predicate Placed(files: Files, k: string)
    requires k in files
  {
    && Canonical(k) && files[k].path == k
    && (k != "/" ==> Dir(k) in files && files[Dir(k)].directory)
  }

  /** `/` is a directory and every entry is in its place. */
  ghost predicate TreeInv(files: Files) {
    && "/" in files && files["/"].directory
    && forall k {:trigger Placed(files, k)} | k in files :: Placed(files, k)
  }

  lemma TreeKeys(files: Files)
    requires TreeInv(files)
    ensures forall k | k in files :: Canonical(k)
  {
    forall k | k in files ensures Canonical(k) { assert Placed(files, k); }
  }

  lemma RootPresent(files: Files)
    requires TreeInv(files)
    ensures "/" in files && files["/"].directory
  {}

  /** The existing entries that a path names on its way down are directories. */
  ghost predicate AncestorsAreDirectories(files: Files, p: string) {
    forall k | k in files && Under(k, p) && k != p :: files[k].directory
  }

  ghost predicate HasChildren(files: Files, p: string) {
    exists k | k in files :: k != "/" && Dir(k) == p
  }

  // ---- path algebra over strings ----

  lemma ParentOf(p: string)
    requires Canonical(p)
    ensures Canonical(Dir(p)) && Under(Dir(p), p)
    ensures p != "/" ==> |Parts(Dir(p))| < |Parts(p)| && Dir(p) != p && !Under(p, Dir(p))
    ensures p == "/" ==> Dir(p) == "/"
    ensures Parts(Dir(p)) == if p == "/" then [] else Parts(p)[..|Parts(p)| - 1]
  {
    var cs := Parts(p);
    PartsRender(cs);
    PartsRender([]);
    DirRender(cs);
    if cs != [] {
      var init := cs[..|cs| - 1];
      PartsRender(init);
      UnderRender(init, cs);
      UnderRender(cs, init);
      if p == "/" { RenderInjective(cs, []); }
    }
  }

  lemma UnderParts(a: string, b: string)
    requires Canonical(a) && Canonical(b)
    ensures Under(a, b) <==> Parts(a) <= Parts(b)
    ensures a == b <==> Parts(a) == Parts(b)
  {
    UnderRender(Parts(a), Parts(b));
  }

  lemma SplitParts(p: string)
    requires Canonical(p) && p != "/"
    ensures Split(WithoutSlash(p)) == Parts(p)
  {
    PartsRender(Parts(p));
    if Parts(p) != [] { assert Split(p) == [""] + Split(p[1..]); }
  }

  lemma RootParts()
    ensures Canonical("/") && Parts("/") == []
  {
    PartsRender([]);
  }

  lemma UnderTransitive(a: string, b: string, c: string)
    requires Canonical(a) && Canonical(b) && Canonical(c) && Under(a, b) && Under(b, c)
    ensures Under(a, c)
  {
    UnderParts(a, b);
    UnderParts(b, c);
    UnderParts(a, c);
  }

  /** Two ancestors of one path are comparable. */
  lemma UnderLinear(a: string, b: string, k: string)
    requires Canonical(a) && Canonical(b) && Canonical(k) && Under(a, k) && Under(b, k)
    ensures Under(a, b) || Under(b, a)
  {
    UnderParts(a, k);
    UnderParts(b, k);
    UnderParts(a, b);
    UnderParts(b, a);
    if |Parts(a)| <= |Parts(b)| {
      assert Parts(a) == Parts(b)[..|Parts(a)|];
    } else {
      assert Parts(b) == Parts(a)[..|Parts(b)|];
    }
  }

  /** What lies below `a` and is not `a` has its parent below `a`. */
  lemma UnderOfParent(a: string, k: string)
    requires Canonical(a) && Canonical(k) && k != "/"
    ensures Under(a, k) <==> k == a || Under(a, Dir(k))
  {
    ParentOf(k);
    UnderParts(a, k);
    UnderParts(a, Dir(k));
    var n := |Parts(k)| - 1;
    if Parts(a) <= Parts(k) && Parts(a) != Parts(k) {
      assert Parts(a) == Parts(k)[..n][..|Parts(a)|];
    }
  }

  // ---- EnsureParents ----

  lemma {:induction false} EnsureParentsKeeps(files: Files, p: string)
    requires Canonical(p)
    ensures forall k | k in files :: k in EnsureParents(files, p) && EnsureParents(files, p)[k] == files[k]
    decreases |Parts(p)|
  {
    ParentOf(p);
    var d := Dir(p);
    if d != "/" {
      EnsureParentsKeeps(if d in files then files else files[d := RootDirectory(d)], d);
    }
  }

  /** ensureParents adds exactly the missing proper ancestors, each as an empty
      root-owned directory: the result is closed under taking ancestors of `p`. */
  lemma {:induction false} EnsureParentsMeaning(files: Files, p: string, k: string)
    requires Canonical(p) && Canonical(k)
    ensures k in EnsureParents(files, p) <==> k in files || (Under(k, p) && k != p && k != "/")
    ensures k in EnsureParents(files, p) ==>
              EnsureParents(files, p)[k] == if k in files then files[k] else RootDirectory(k)
    decreases |Parts(p)|
  {
    ParentOf(p);
    RootParts();
    var d := Dir(p);
    if p != "/" {
      UnderOfParent(k, p);
      if d != "/" {
        var next := if d in files then files else files[d := RootDirectory(d)];
        EnsureParentsMeaning(next, d, k);
        if Under(k, p) && k != p { UnderParts(k, d); }
      } else {
        UnderParts(k, "/");
      }
    } else {
      UnderParts(k, "/");
    }
  }

  lemma EnsureParentsNoKeys(files: Files, p: string)
    requires Canonical(p) && forall k | k in files :: Canonical(k)
    ensures forall k | k in EnsureParents(files, p) :: Canonical(k)
    decreases |Parts(p)|
  {
    ParentOf(p);
    var d := Dir(p);
    if d != "/" {
      EnsureParentsNoKeys(if d in files then files else files[d := RootDirectory(d)], d);
    }
  }

  // ---- ancestors in a tree ----

  lemma {:induction false} AncestorsPresent(files: Files, k: string, a: string)
    requires TreeInv(files) && k in files && Canonical(a) && Under(a, k)
    ensures a in files && (a != k ==> files[a].directory)
    decreases |Parts(k)|
  {
    assert Placed(files, k);
    if a != k {
      RootParts();
      UnderParts(a, k);
      if k != "/" {
        UnderOfParent(a, k);
        ParentOf(k);
        AncestorsPresent(files, Dir(k), a);
      }
    }
  }

  lemma NoNewAncestor(files: Files, p: string, k: string)
    requires TreeInv(files) && Canonical(p) && Canonical(k) && Dir(p) in files
    ensures k in EnsureParents(files, p) ==> k in files
  {
    hide TreeInv, EnsureParents, Canonical, Under, Dir, Parts;
    RootParts();
    EnsureParentsMeaning(files, p, k);
    if k in EnsureParents(files, p) && k !in files {
      if p == "/" {
        UnderParts(k, p);
      } else {
        UnderOfParent(k, p);
        ParentOf(p);
        AncestorsPresent(files, Dir(p), k);
      }
    }
  }

  /** With its parent present, a path needs no new ancestors. */
  lemma NothingToCreate(files: Files, p: string)
    requires TreeInv(files) && Canonical(p) && Dir(p) in files
    ensures EnsureParents(files, p) == files
  {
    hide TreeInv, EnsureParents, Canonical, Dir;
    var g := EnsureParents(files, p);
    TreeKeys(files);
    EnsureParentsNoKeys(files, p);
    EnsureParentsKeeps(files, p);
    forall k | k in g ensures k in files { NoNewAncestor(files, p, k); }
    assert g.Keys == files.Keys;
  }

  lemma TreeAdd(files: Files, p: string, f: File)
    requires TreeInv(files) && Canonical(p) && f.path == p && p !in files
    requires Dir(p) in files && files[Dir(p)].directory
    ensures TreeInv(files[p := f])
  {
    var g := files[p := f];
    forall k | k in g ensures Placed(g, k) {
      if k != p { assert Placed(files, k); }
    }
  }

  lemma TreeReplace(files: Files, p: string, f: File)
    requires TreeInv(files) && p in files && f.path == p
    requires f.directory || (p != "/" && !HasChildren(files, p))
    ensures TreeInv(files[p := f])
  {
    var g := files[p := f];
    forall k | k in g ensures Placed(g, k) {
      assert Placed(files, k);
      if k != "/" && Dir(k) == p { assert HasChildren(files, p); }
    }
  }

  /** Creating the missing ancestors keeps the tree when the existing ones are directories. */
  lemma {:induction false} TreeEnsure(files: Files, p: string)
    requires TreeInv(files) && Canonical(p) && AncestorsAreDirectories(files, p)
    ensures TreeInv(EnsureParents(files, p))
    ensures Dir(p) in EnsureParents(files, p) && EnsureParents(files, p)[Dir(p)].directory
    ensures p in EnsureParents(files, p) <==> p in files
  {
    var g := EnsureParents(files, p);
    RootParts();
    ParentOf(p);
    TreeKeys(files);
    EnsureParentsNoKeys(files, p);
    EnsureParentsMeaning(files, p, "/");
    forall k | k in g ensures Placed(g, k) {
      if k in files { assert Placed(files, k); }
      EnsureParentsMeaning(files, p, k);
      if k != "/" {
        var d := Dir(k);
        ParentOf(k);
        EnsureParentsMeaning(files, p, d);
        if k !in files {
          UnderTransitive(d, k, p);
          UnderParts(d, p);
          UnderParts(k, p);
        }
      }
    }
    EnsureParentsMeaning(files, p, p);
    EnsureParentsMeaning(files, p, Dir(p));
    if p != "/" && Dir(p) in files { assert files[Dir(p)].directory; }
  }

  lemma TargetCanonical(files: Files, src: string, dst: string)
    requires Canonical(src) && Canonical(dst) && src != "/"
    ensures Canonical(Target(files, src, dst))
  {
    var cs := Parts(src);
    PartsRender(cs);
    assert cs != [];
    BaseRender(cs);
    var c := cs[|cs| - 1];
    assert ValidPart(c);
    JoinRender(Parts(dst), c);
    PartsRender(Parts(dst) + [c]);
  }
}
