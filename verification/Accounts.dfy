/** New users: what AddUser changes, and what every run keeps of the user table. */
module Accounts {
  import opened Host
  import opened Paths
  import opened FileTree
  import opened Machine
  import Access
  import Rules
  import Services

  /** The entries of a home directory. */
  function HomeKeys(name: string): set<string> {
    {Home(name), Home(name) + "/.bash_profile", Home(name) + "/.bashrc"}
  }

  lemma HomeIsElsewhere(name: string)
    ensures PASSWD !in HomeKeys(name) && GROUP !in HomeKeys(name) && PASSWD != GROUP
  {
    assert PASSWD[1] == 'e' && GROUP[1] == 'e' && Home(name)[1] != 'e';
    assert (Home(name) + "/.bash_profile")[1] == Home(name)[1] && (Home(name) + "/.bashrc")[1] == Home(name)[1];
    assert PASSWD[5] == 'p' && GROUP[5] == 'g';
  }

  lemma HomeFilesKeys(files: Files, name: string)
    ensures HomeFiles(files, name).Keys == files.Keys + HomeKeys(name)
    ensures forall k | k in files && k !in HomeKeys(name) :: HomeFiles(files, name)[k] == files[k]
  {
    hide PROFILE_TEXT, RC_TEXT, Home;
  }

  /** An entry that knows its own place gets the new content, and no other entry changes. */
  lemma RewrittenAt(files: Files, p: string, content: string)
    requires p in files ==> files[p].path == p
    ensures Rewritten(files, p, content) == if p in files then files[p := files[p].(content := content)] else files
  {}

  ghost predicate InPlace(files: Files, p: string) { p in files ==> files[p].path == p }

  lemma IdentityMeaning(R: Identity, files: Files, users: map<string, User>)
    requires InPlace(files, PASSWD) && InPlace(files, GROUP) && PASSWD != GROUP
    ensures var after := SyncIdentity(R, files, users);
            && after.Keys == files.Keys
            && (forall p | p in files && p != PASSWD && p != GROUP :: after[p] == files[p])
            && (PASSWD in files ==> after[PASSWD] == files[PASSWD].(content := R.passwd(users)))
            && (GROUP in files ==> after[GROUP] == files[GROUP].(content := R.group(users)))
  {
    hide PASSWD, GROUP, Rewritten;
    RewrittenAt(files, PASSWD, R.passwd(users));
    RewrittenAt(Rewritten(files, PASSWD, R.passwd(users)), GROUP, R.group(users));
  }

  lemma NewUserShape(R: Identity, h: Host, name: string)
    requires name != "" && name !in h.users
    ensures var uid := NextUid(h.users);
            var users := h.users[name := User(name, uid, uid, [name], "/bin/bash")];
            AddUser(R, h, name, "root") == (h.(users := users, files := SyncIdentity(R, HomeFiles(h.files, name), users)), Done)
  {
    hide NextUid, SyncIdentity, HomeFiles;
  }

  /** A new user gets an id above every other, a home, and a line in the identity files,
      rendered from the new table; every other entry stays. */
  lemma NewUserMeaning(R: Identity, h: Host, name: string)
    requires name != "" && name !in h.users
    requires InPlace(h.files, PASSWD) && InPlace(h.files, GROUP)
    ensures var (after, r) := AddUser(R, h, name, "root");
            && r == Done && name in after.users && after.users - {name} == h.users
            && after.users[name].uid >= FIRST_UID && (forall n | n in h.users :: h.users[n].uid < after.users[name].uid)
            && after.files.Keys == h.files.Keys + HomeKeys(name)
            && (forall p | p in h.files && p !in HomeKeys(name) && p != PASSWD && p != GROUP :: after.files[p] == h.files[p])
            && (PASSWD in h.files ==> after.files[PASSWD] == h.files[PASSWD].(content := R.passwd(after.users)))
            && (GROUP in h.files ==> after.files[GROUP] == h.files[GROUP].(content := R.group(after.users)))
  {
    hide PASSWD, GROUP, HomeFiles, HomeKeys, NextUid, AddUser, SyncIdentity;
    NewUserShape(R, h, name);
    HomeIsElsewhere(name);
    HomeFilesKeys(h.files, name);
    IdentityMeaning(R, HomeFiles(h.files, name), AddUser(R, h, name, "root").0.users);
  }

  lemma HomeEntries(files: Files, name: string)
    ensures var after := HomeFiles(files, name);
            var home := Home(name);
            && after[home] == File(home, "", name, name, 0x1e8, "user_home_dir_t", true)
            && after[home + "/.bash_profile"] == File(home + "/.bash_profile", PROFILE_TEXT, name, name, 0x1a4, "user_home_t", false)
            && after[home + "/.bashrc"] == File(home + "/.bashrc", RC_TEXT, name, name, 0x1a4, "user_home_t", false)
  {
    hide Home, PROFILE_TEXT, RC_TEXT;
    var home := Home(name);
    assert |home + "/.bash_profile"| == |home| + 14 && |home + "/.bashrc"| == |home| + 8;
  }

  /** The home directory of a new user is its own: it and root may create files there, and nobody else. */
  lemma HomeIsOwn(R: Identity, h: Host, name: string, file: string, path: string, text: string, other: string)
    requires name != "" && name !in h.users && Canonical(h.cwd) && (other == "root" || other == name || other in h.users)
    requires InPlace(h.files, PASSWD) && InPlace(h.files, GROUP) && TreeInv(AddUser(R, h, name, "root").0.files)
    requires file != "" && NormalizePath(file, h.cwd) == Ok(path) && Dir(path) == Home(name)
    requires path !in AddUser(R, h, name, "root").0.files
    ensures WriteFile(AddUser(R, h, name, "root").0, file, text, other, false).1.Done? <==> other == "root" || other == name
  {
    hide PASSWD, GROUP, HomeFiles, HomeKeys, NextUid, AddUser, SyncIdentity, WriteFile, TreeInv, Canonical, NormalizePath, Dir, Home;
    NewUserShape(R, h, name);
    var after := AddUser(R, h, name, "root").0;
    HomeIsElsewhere(name);
    HomeFilesKeys(h.files, name);
    HomeEntries(h.files, name);
    IdentityMeaning(R, HomeFiles(h.files, name), after.users);
    KeysOfHome(name);
    var home := Home(name);
    Access.AcceptedExact(after, file, text, other, false);
    HomeBits(after, home, name, other);
  }

  lemma KeysOfHome(name: string)
    ensures Home(name) in HomeKeys(name)
  {}

  lemma HomeBits(h: Host, home: string, name: string, other: string)
    requires other == "root" || other in h.users
    ensures Access.MayWrite(h, File(home, "", name, name, 0x1e8, "user_home_dir_t", true), other) <==> other == "root" || other == name
  {}

  // ---- the table over every run ----

  ghost predicate DistinctUids(users: map<string, User>) {
    forall a, b | a in users && b in users && users[a].uid == users[b].uid :: a == b
  }

  /** One operation adds at most the user it names, and changes no other. */
  lemma UsersStep(R: Identity, m: Machine, op: Op)
    requires Canonical(m.now.cwd) && !IsReset(op)
    ensures var after := Step(R, m, op).now.users;
            after == m.now.users ||
            (op.NewUser? && op.name !in m.now.users
             && after == m.now.users[op.name := User(op.name, NextUid(m.now.users), NextUid(m.now.users), [op.name], "/bin/bash")])
  {
    hide Canonical, NextUid, SyncIdentity, HomeFiles;
    if op.Units? { UnitStep(R, m, op); }
  }

  lemma UidsStep(R: Identity, m: Machine, op: Op)
    requires Canonical(m.now.cwd) && DistinctUids(m.now.users) && DistinctUids(m.initial.users)
    ensures DistinctUids(Step(R, m, op).now.users)
  {
    hide Canonical;
    if !IsReset(op) { UsersStep(R, m, op); }
  }

  /** No run ever gives two users one id. */
  lemma {:induction false} UidsStayDistinct(R: Identity, m: Machine, ops: seq<Op>)
    requires Canonical(m.now.cwd) && Canonical(m.initial.cwd)
    requires DistinctUids(m.now.users) && DistinctUids(m.initial.users)
    ensures DistinctUids(Run(R, m, ops).now.users)
    decreases |ops|
  {
    if ops != [] {
      CwdStaysCanonical(R, m, ops[0]);
      UidsStep(R, m, ops[0]);
      UidsStayDistinct(R, Step(R, m, ops[0]), ops[1..]);
    }
  }

  /** Without a reset every user stays what it was. */
  lemma {:induction false} UsersStay(R: Identity, m: Machine, ops: seq<Op>, name: string)
    requires Canonical(m.now.cwd) && Canonical(m.initial.cwd) && NoReset(ops) && name in m.now.users
    ensures var users := Run(R, m, ops).now.users; name in users && users[name] == m.now.users[name]
    decreases |ops|
  {
    if ops != [] {
      assert ops[0] in ops;
      CwdStaysCanonical(R, m, ops[0]);
      UsersStep(R, m, ops[0]);
      UsersStay(R, Step(R, m, ops[0]), ops[1..], name);
    }
  }
}
