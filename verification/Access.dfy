/** Who may read, write and create: the mode bits of canReadLocked and canWriteLocked at the
    operations that ask for them. */
module Access {
  import opened Paths
  import opened Host
  import opened FileTree
  import FileTheorems
  import Interpreter

  // ---- one entry ----

  /** Overwriting or extending an entry: root always may, an unknown user never, and a known one
      by the write bit of the owner, of the group or of the others, the first of these that
      the user belongs to. */
  lemma OverwriteExact(h: Host, name: string, text: string, user: string, append: bool)
    requires Canonical(h.cwd) && name != "" && Normalized(h, name).path in h.files
    ensures var f := h.files[Normalized(h, name).path];
            var done := WriteFile(h, name, text, user, append).1.Done?;
            && (user == "root" ==> done)
            && (user != "root" && user !in h.users ==> !done)
            && (user != "root" && user in h.users ==>
                  && (f.owner == user ==> (done <==> f.mode & 0x80 != 0))
                  && (f.owner != user && f.group in h.users[user].groups ==> (done <==> f.mode & 0x10 != 0))
                  && (f.owner != user && f.group !in h.users[user].groups ==> (done <==> f.mode & 0x2 != 0)))
  {}

  /** Reading a file, by the read bits in the same way. */
  lemma ReadExact(h: Host, name: string, user: string)
    requires Canonical(h.cwd) && name != "" && Normalized(h, name).path in h.files
    requires !h.files[Normalized(h, name).path].directory
    ensures var f := h.files[Normalized(h, name).path];
            var read := Interpreter.ReadFile(h, name, user);
            && (read.Content? ==> read.text == f.content)
            && (user == "root" ==> read.Content?)
            && (user != "root" && user !in h.users ==> !read.Content?)
            && (user != "root" && user in h.users ==>
                  && (f.owner == user ==> (read.Content? <==> f.mode & 0x100 != 0))
                  && (f.owner != user && f.group in h.users[user].groups ==> (read.Content? <==> f.mode & 0x20 != 0))
                  && (f.owner != user && f.group !in h.users[user].groups ==> (read.Content? <==> f.mode & 0x4 != 0)))
  {}

  // ---- the operations ----

  /** The write bit of the class that the user belongs to. */
  ghost predicate MayWrite(h: Host, f: File, user: string) {
    || user == "root"
    || (user in h.users && f.owner == user && f.mode & 0x80 != 0)
    || (user in h.users && f.owner != user && f.group in h.users[user].groups && f.mode & 0x10 != 0)
    || (user in h.users && f.owner != user && f.group !in h.users[user].groups && f.mode & 0x2 != 0)
  }

  ghost predicate MayRead(h: Host, f: File, user: string) {
    || user == "root"
    || (user in h.users && f.owner == user && f.mode & 0x100 != 0)
    || (user in h.users && f.owner != user && f.group in h.users[user].groups && f.mode & 0x20 != 0)
    || (user in h.users && f.owner != user && f.group !in h.users[user].groups && f.mode & 0x4 != 0)
  }

  lemma Bits(h: Host, f: File, user: string)
    ensures CanWrite(h, f, user) <==> MayWrite(h, f, user)
    ensures CanRead(h, f, user) <==> MayRead(h, f, user)
  {}

  /** Who may put something into the directory of `p`: whoever may write the directory, and root
      alone when it is not there. */
  ghost predicate MayEnter(h: Host, p: string, user: string) {
    if Dir(p) in h.files then MayWrite(h, h.files[Dir(p)], user) else user == "root"
  }

  lemma RootOnly(h: Host, p: string, user: string)
    ensures MayWrite(h, RootDirectory(p), user) <==> user == "root"
    ensures MayWrite(h, ZERO_FILE, user) <==> user == "root"
  {}

  lemma GrownParent(h: Host, p: string, user: string)
    requires TreeInv(h.files) && Canonical(p)
    ensures CanWrite(h, Lookup(EnsureParents(h.files, p), Dir(p)), user) <==> MayEnter(h, p, user)
  {
    hide CanWrite, MayWrite, EnsureParents, Canonical, TreeInv, Dir, Under, RootDirectory;
    var d := Dir(p);
    ParentOf(p);
    RootPresent(h.files);
    EnsureParentsMeaning(h.files, p, d);
    Bits(h, Lookup(EnsureParents(h.files, p), d), user);
    RootOnly(h, d, user);
  }

  lemma ParentNow(h: Host, p: string, user: string)
    ensures CanWrite(h, Lookup(h.files, Dir(p)), user) <==> MayEnter(h, p, user)
  {
    hide CanWrite, MayWrite, Dir;
    Bits(h, Lookup(h.files, Dir(p)), user);
    RootOnly(h, Dir(p), user);
  }

  /** Which of the operations on one path are accepted, for every user and every name. */
  lemma AcceptedExact(h: Host, name: string, text: string, user: string, append: bool)
    requires TreeInv(h.files) && Canonical(h.cwd)
    ensures name == "" ==>
              && WriteFile(h, name, text, user, append) == Touch(h, name, user) == MakeDir(h, name, user)
              == Remove(h, name, user) == (h, Failed(PathEmpty))
    ensures name != "" ==>
              var p := Normalized(h, name).path;
              && (WriteFile(h, name, text, user, append).1.Done? <==>
                    if p in h.files then MayWrite(h, h.files[p], user) else MayEnter(h, p, user))
              && (Touch(h, name, user).1.Done? <==> p in h.files || MayEnter(h, p, user))
              && (MakeDir(h, name, user).1.Done? <==> p !in h.files && MayEnter(h, p, user))
              && (Remove(h, name, user).1.Done? <==> p in h.files && p != "/" && MayEnter(h, p, user))
  {
    hide CanWrite, MayWrite, MayEnter, EnsureParents, Canonical, TreeInv, Dir, Under, NormalizePath, Lookup, WithoutSubtree;
    if name != "" {
      var p := Normalized(h, name).path;
      GrownParent(h, p, user);
      ParentNow(h, p, user);
      if p in h.files { Bits(h, h.files[p], user); }
    }
  }

  /** A copy or move needs the read bit of its source, and the write bits of the target's
      directory and of what is in its place. */
  lemma CopyAcceptedExact(h: Host, source: string, destination: string, user: string, move: bool, recursive: bool, src: string, dst: string)
    requires TreeInv(h.files) && FileTheorems.Resolved(h, source, destination, src, dst) && Canonical(src) && Canonical(dst)
    ensures CopyRecursive(h, source, destination, user, move, recursive).1.Done? <==>
              && src in h.files && dst != src
              && (h.files[src].directory ==> (move || recursive) && !Under(src, dst))
              && MayRead(h, h.files[src], user) && MayEnter(h, dst, user)
              && (dst in h.files ==> MayWrite(h, h.files[dst], user))
  {
    hide CanWrite, CanRead, MayWrite, MayRead, EnsureParents, Canonical, TreeInv, Dir, Under, CopyRecursive, Lookup, FileTheorems.Resolved;
    FileTheorems.CopyDecision(h, source, destination, user, move, recursive, src, dst);
    GrownParent(h, dst, user);
    if src in h.files { Bits(h, h.files[src], user); }
    TargetKept(h.files, dst);
    if dst in h.files { Bits(h, h.files[dst], user); }
    AlwaysRoot(h, user);
  }

  lemma AlwaysRoot(h: Host, user: string)
    ensures user == "root" ==> forall f :: MayWrite(h, f, user) && MayRead(h, f, user)
  {}

  lemma TargetKept(files: Files, p: string)
    requires Canonical(p)
    ensures p in EnsureParents(files, p) <==> p in files
    ensures p in files ==> EnsureParents(files, p)[p] == files[p]
  {
    hide EnsureParents, Canonical;
    EnsureParentsMeaning(files, p, p);
  }

  // ---- what is created ----

  lemma NewRegularBits(h: Host, p: string, user: string, text: string, other: string)
    requires other == "root" || other in h.users
    ensures var f := NewRegular(h, p, user).(content := text);
            MayRead(h, f, other) && (MayWrite(h, f, other) <==> other == "root" || other == user)
  {}

  lemma NewDirectoryBits(h: Host, p: string, user: string, other: string)
    requires other == "root" || other in h.users
    ensures MayWrite(h, NewDirectory(h, p, user), other) <==> other == "root" || other == user
  {}

  lemma SameUsers(h: Host, g: Host, f: File, user: string)
    requires g.users == h.users
    ensures MayWrite(g, f, user) <==> MayWrite(h, f, user)
    ensures MayRead(g, f, user) <==> MayRead(h, f, user)
  {}

  /** A new file can be read by every user, and written again by root and by who created it. */
  lemma NewFileAccess(h: Host, name: string, text: string, user: string, append: bool, other: string, more: string)
    requires TreeInv(h.files) && Canonical(h.cwd) && name != "" && Normalized(h, name).path !in h.files
    requires WriteFile(h, name, text, user, append).1.Done? && (other == "root" || other in h.users)
    ensures var after := WriteFile(h, name, text, user, append).0;
            && Interpreter.ReadFile(after, name, other) == Interpreter.Content(text)
            && (WriteFile(after, name, more, other, false).1.Done? <==> other == "root" || other == user)
  {
    hide CanWrite, CanRead, MayWrite, MayRead, EnsureParents, Canonical, TreeInv, Dir, Under, NormalizePath, Lookup;
    var p := Normalized(h, name).path;
    var after := WriteFile(h, name, text, user, append).0;
    var f := NewRegular(h, p, user).(content := text);
    NewRegularBits(h, p, user, text, other);
    SameUsers(h, after, f, other);
    Bits(after, f, other);
  }

  /** In a new directory root and who made it may create files, and nobody else. */
  lemma NewDirectoryAccess(h: Host, name: string, user: string, inside: string, text: string, other: string)
    requires TreeInv(h.files) && Canonical(h.cwd) && name != "" && inside != "" && (other == "root" || other in h.users)
    requires MakeDir(h, name, user).1.Done? && TreeInv(MakeDir(h, name, user).0.files)
    requires Dir(Normalized(h, inside).path) == Normalized(h, name).path
    requires Normalized(h, inside).path !in MakeDir(h, name, user).0.files
    ensures WriteFile(MakeDir(h, name, user).0, inside, text, other, false).1.Done? <==> other == "root" || other == user
  {
    hide CanWrite, MayWrite, EnsureParents, Canonical, TreeInv, Dir, Under, NormalizePath, Lookup, WriteFile, NewDirectory;
    var after := MakeDir(h, name, user).0;
    AcceptedExact(after, inside, text, other, false);
    var p := Normalized(h, name).path;
    NewDirectoryBits(h, p, user, other);
    SameUsers(h, after, NewDirectory(h, p, user), other);
  }
}
