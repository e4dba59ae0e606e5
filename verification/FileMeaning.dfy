/** What each filesystem operation writes, refuses and leaves alone. */
module FileMeaning {
  import opened Text
  import opened Paths
  import opened Host
  import opened FileTree
  import opened FileMoves
  import opened FileTheorems

  /** Apart from `p`, old entries are as they were and new ones are missing ancestors of `p`. */
  ghost predicate OnlyAncestorsAdded(before: Files, after: Files, p: string) {
    && (forall k | k in before && k != p :: k in after && after[k] == before[k])
    && (forall k | k in after && k !in before && k != p :: Canonical(k) && Under(k, p) && k != "/" && after[k] == RootDirectory(k))
  }

  lemma {:induction false} ParentsAdded(files: Files, p: string, k: string)
    requires Canonical(p) && k in EnsureParents(files, p) && k !in files
    ensures Canonical(k) && Under(k, p) && k != p && k != "/" && EnsureParents(files, p)[k] == RootDirectory(k)
    decreases |Parts(p)|
  {
    hide Canonical, Under;
    ParentOf(p);
    var d := Dir(p);
    if d != "/" {
      var next := if d in files then files else files[d := RootDirectory(d)];
      EnsureParentsKeeps(next, d);
      if k !in next {
        ParentsAdded(next, d, k);
        UnderTransitive(k, d, p);
        if k == p { ParentsShrink(d, p); }
      }
    }
  }

  /** Nothing lies both strictly below a path and above it. */
  lemma ParentsShrink(d: string, p: string)
    requires Canonical(p) && Canonical(d) && d == Dir(p) && p != "/"
    ensures !Under(p, d)
  {
    ParentOf(p);
  }

  lemma CreatedOnly(files: Files, p: string, f: File)
    requires Canonical(p)
    ensures OnlyAncestorsAdded(files, EnsureParents(files, p), p)
    ensures OnlyAncestorsAdded(files, EnsureParents(files, p)[p := f], p)
    ensures p !in files ==> p !in EnsureParents(files, p)
  {
    hide Canonical, Under, EnsureParents;
    EnsureParentsKeeps(files, p);
    forall k | k in EnsureParents(files, p) && k !in files
      ensures Canonical(k) && Under(k, p) && k != p && k != "/" && EnsureParents(files, p)[k] == RootDirectory(k)
    {
      ParentsAdded(files, p, k);
    }
  }

  /** A write that succeeds leaves the given content (after the old one, when appending)
      in the entry it names, keeps everything else of an existing entry, gives a new one
      to its writer, and touches no other entry. */
  lemma WriteMeaning(h: Host, name: string, content: string, user: string, append: bool)
    requires Canonical(h.cwd) && name != "" && WriteFile(h, name, content, user, append).1.Done?
    ensures var p := Normalized(h, name).path;
            var after := WriteFile(h, name, content, user, append).0.files;
            && p in after && OnlyAncestorsAdded(h.files, after, p)
            && (if p in h.files then
                  after[p] == h.files[p].(content := if append then h.files[p].content + content else content)
                else
                  after[p] == File(p, content, user, PrimaryGroup(h, user), 0x1a4, "", false))
  {
    hide Canonical, NormalizePath, Dir, Create, Overwrite, CanWrite, PrimaryGroup, OnlyAncestorsAdded;
    var p := Normalized(h, name).path;
    if p in h.files {
      OverwriteMeaning(h, p, content, user, append);
    } else {
      CreateMeaning(h, p, NewRegular(h, p, user).(content := content), user);
    }
  }

  lemma OverwriteMeaning(h: Host, p: string, content: string, user: string, append: bool)
    requires p in h.files && Overwrite(h, p, content, user, append).1.Done?
    ensures var after := Overwrite(h, p, content, user, append).0.files;
            && OnlyAncestorsAdded(h.files, after, p)
            && p in after && after[p] == h.files[p].(content := if append then h.files[p].content + content else content)
  {
    hide CanWrite, OnlyAncestorsAdded;
    ReplacedOnly(h.files, p, h.files[p].(content := if append then h.files[p].content + content else content));
  }

  lemma CreateMeaning(h: Host, p: string, f: File, user: string)
    requires Canonical(p) && Create(h, p, f, user).1.Done?
    ensures var after := Create(h, p, f, user).0.files;
            OnlyAncestorsAdded(h.files, after, p) && p in after && after[p] == f
  {
    hide Canonical, Dir, EnsureParents, CanWrite, OnlyAncestorsAdded;
    CreatedOnly(h.files, p, f);
  }

  lemma ReplacedOnly(files: Files, p: string, f: File)
    requires p in files
    ensures OnlyAncestorsAdded(files, files[p := f], p)
  {
    hide Canonical, Under;
  }

  /** touch leaves an existing entry alone and creates an empty one otherwise. */
  lemma TouchMeaning(h: Host, name: string, user: string)
    requires Canonical(h.cwd) && name != "" && Touch(h, name, user).1.Done?
    ensures var p := Normalized(h, name).path;
            var after := Touch(h, name, user).0.files;
            if p in h.files then after == h.files
            else p in after && after[p] == File(p, "", user, PrimaryGroup(h, user), 0x1a4, "", false)
                 && OnlyAncestorsAdded(h.files, after, p)
  {
    hide Canonical, NormalizePath, Dir, EnsureParents, CanWrite, PrimaryGroup, OnlyAncestorsAdded;
    var p := Normalized(h, name).path;
    if p !in h.files { CreateMeaning(h, p, NewRegular(h, p, user), user); }
  }

  /** After a successful mkdir -p on a tree the path and everything above it are
      directories; nothing that existed has changed, and all that is new lies on the path. */
  lemma MakeDirAllMeaning(h: Host, name: string, user: string)
    requires TreeInv(h.files) && Canonical(h.cwd) && name != "" && MakeDirAll(h, name, user).1.Done?
    ensures var p := Normalized(h, name).path;
            var after := MakeDirAll(h, name, user).0.files;
            && p in after && after[p].directory && TreeInv(after)
            && (forall k | k in h.files :: k in after && after[k] == h.files[k])
            && (forall k | k in after && k !in h.files :: Canonical(k) && Under(k, p))
  {
    MakeDirAllKeepsTree(h, name, user);
    hide NormalizePath, TreeInv;
    var p := Normalized(h, name).path;
    if p !in h.files {
      assert p != "/" by { RootPresent(h.files); }
      SplitParts(p);
      PartsRender([]);
      assert Parts(p)[..0] == [];
      RootPresent(h.files);
      MakeDirsMeaning(h, Parts(p), 0, user);
      assert Parts(p)[..|Parts(p)|] == Parts(p);
    }
  }

  lemma {:induction false} MakeDirsMeaning(h: Host, parts: seq<string>, i: nat, user: string)
    requires ValidParts(parts) && i <= |parts| && MakeDirs(h, parts, i, user).1.Done?
    requires Render(parts[..i]) in h.files && h.files[Render(parts[..i])].directory
    ensures var after := MakeDirs(h, parts, i, user).0.files;
            && Render(parts[..|parts|]) in after && after[Render(parts[..|parts|])].directory
            && (forall k | k in h.files :: k in after && after[k] == h.files[k])
            && (forall k | k in after && k !in h.files :: Canonical(k) && Under(k, Render(parts)))
    decreases |parts| - i
  {
    hide Canonical, Under, Render, Dir, CanWrite, PrimaryGroup;
    assert parts[..|parts|] == parts;
    if i < |parts| {
      var current := Render(parts[..i + 1]);
      if current in h.files {
        MakeDirsMeaning(h, parts, i + 1, user);
      } else {
        PrefixPath(parts, i + 1);
        MakeDirsMeaning(h.(files := h.files[current := NewDirectory(h, current, user)]), parts, i + 1, user);
      }
    }
  }

  lemma PrefixPath(parts: seq<string>, i: nat)
    requires ValidParts(parts) && i <= |parts|
    ensures Canonical(Render(parts[..i])) && Under(Render(parts[..i]), Render(parts))
  {
    assert forall c | c in parts[..i] :: c in parts;
    PartsRender(parts[..i]);
    UnderRender(parts[..i], parts);
  }

  /** rm removes exactly the entry and what lies below it, or changes nothing. */
  lemma RemoveMeaning(h: Host, name: string, user: string)
    requires TreeInv(h.files) && Canonical(h.cwd)
    ensures var (after, r) := Remove(h, name, user);
            if r.Failed? then after == h
            else
              name != "" &&
              var p := Normalized(h, name).path;
              && p in h.files && p != "/"
              && after.files == map k | k in h.files && !Under(p, k) :: h.files[k]
  {
    hide Canonical, NormalizePath, Dir, CanWrite, Under, TreeInv, Lookup;
    if name != "" {
      var p := Normalized(h, name).path;
      if p in h.files && !h.files[p].directory { RegularRemoval(h.files, p); }
    }
  }
}
