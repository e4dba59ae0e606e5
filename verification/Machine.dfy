/** The machine a session works on: the live host and the snapshot taken at boot,
    under every mutating operation of internal/system/state.go. */
module Machine {
  import opened Text
  import opened Host
  import opened Options
  import opened Paths
  import opened FileTree
  import opened FileMoves
  import opened FileTheorems
  import opened FileGuards
  import opened Services
  import Rules

  /** A live host and the snapshot that reset goes back to. */
  datatype Machine = Machine(now: Host, initial: Host)

  /** renderPasswd and renderGroup. */
  datatype Identity = Identity(passwd: map<string, User> -> string, group: map<string, User> -> string)

  datatype Op =
    | Files(file: FileOp, user: string)
    | Units(unit: ServiceOp, user: string)
    | Allow(zone: string, service: string, user: string)
    | Publish(effect: Rules.Effect)
    | ChangeDir(dir: string)
    | Export(name: string, value: string)
    | Unset(name: string)
    | NewUser(name: string, actor: string)
    | Tick(delta: int)

  predicate IsReset(op: Op) { op.Units? && op.unit.ResetAll? }

  // ---- operations that have no module of their own ----

  function AllowFirewall(h: Host, zone: string, service: string, user: string): (r: (Host, Outcome))
    ensures r.0 == h.(zones := r.0.zones)
  {
    if user != "root" then (h, Failed(NotRoot))
    else if zone !in h.zones then (h, Failed(NoSuchZone))
    else
      var z := h.zones[zone];
      (h.(zones := h.zones[zone := z.(services := z.services[service := true])]), Done)
  }

  function SetCwd(h: Host, dir: string): (r: (Host, Outcome))
    requires Canonical(h.cwd)
    ensures r.0 == h.(cwd := r.0.cwd) && Canonical(r.0.cwd)
  {
    var n := Normalized(h, dir);
    if !n.Ok? then (h, Failed(PathEmpty))
    else if n.path in h.files && h.files[n.path].directory then (h.(cwd := n.path), Done)
    else (h, Failed(NotFound))
  }

  const FIRST_UID := 1000

  /** The UID after the largest one in use, and at least FIRST_UID. */
  ghost predicate IsNextUid(users: map<string, User>, uid: int) {
    && uid >= FIRST_UID && (forall n | n in users :: users[n].uid < uid)
    && (uid == FIRST_UID || exists n | n in users :: users[n].uid == uid - 1)
  }

  lemma NextUidUnique(users: map<string, User>, a: int, b: int)
    requires IsNextUid(users, a) && IsNextUid(users, b)
    ensures a == b
  {}

  lemma {:induction false} NextUidExists(users: map<string, User>)
    ensures exists uid :: IsNextUid(users, uid)
    decreases |users|
  {
    if users == map[] {
      assert IsNextUid(users, FIRST_UID);
    } else {
      var n :| n in users;
      var rest := users - {n};
      assert |rest.Keys| == |users.Keys| - 1;
      NextUidExists(rest);
      var uid :| IsNextUid(rest, uid);
      var top := if users[n].uid >= uid then users[n].uid + 1 else uid;
      assert forall m | m in users :: m == n || m in rest;
      assert IsNextUid(users, top);
    }
  }

  ghost function NextUid(users: map<string, User>): (uid: int)
    ensures IsNextUid(users, uid)
  {
    NextUidExists(users);
    var uid :| IsNextUid(users, uid);
    uid
  }

  function Home(name: string): string { if name == "root" then "/root" else "/home/" + name }

  const PASSWD := "/etc/passwd"
  const GROUP := "/etc/group"
  const PROFILE_TEXT := "# .bash_profile\nif [ -f ~/.bashrc ]; then . ~/.bashrc; fi\n"
  const RC_TEXT := "# .bashrc\nif [ -f /etc/bashrc ]; then . /etc/bashrc; fi\n"

  function HomeFiles(files: Files, name: string): Files {
    var home := Home(name);
    files[home := File(home, "", name, name, 0x1e8, "user_home_dir_t", true)]
         [home + "/.bash_profile" := File(home + "/.bash_profile", PROFILE_TEXT, name, name, 0x1a4, "user_home_t", false)]
         [home + "/.bashrc" := File(home + "/.bashrc", RC_TEXT, name, name, 0x1a4, "user_home_t", false)]
  }

  /** The content goes to the key the entry names as its path. */
  function Rewritten(files: Files, p: string, content: string): Files {
    if p in files then files[files[p].path := files[p].(content := content)] else files
  }

  /** syncIdentityFilesLocked. */
  function SyncIdentity(R: Identity, files: Files, users: map<string, User>): Files {
    Rewritten(Rewritten(files, PASSWD, R.passwd(users)), GROUP, R.group(users))
  }

  ghost function AddUser(R: Identity, h: Host, name: string, actor: string): (Host, Outcome) {
    if actor != "root" then (h, Failed(NotRoot))
    else if name == "" then (h, Failed(EmptyName))
    else if name in h.users then (h, Failed(UserExists))
    else
      var uid := NextUid(h.users);
      var users := h.users[name := User(name, uid, uid, [name], "/bin/bash")];
      (h.(users := users, files := SyncIdentity(R, HomeFiles(h.files, name), users)), Done)
  }

  // ---- one step ----

  ghost function Perform(R: Identity, h: Host, op: Op): (Host, Outcome)
    requires Canonical(h.cwd) && !IsReset(op)
  {
    match op
    case Files(file, user) => FileTheorems.Apply(h, file, user)
    case Units(Start(name), user) => StartService(h, name, user)
    case Units(Stop(name), user) => StopService(h, name, user)
    case Units(Enable(name, enabled), user) => EnableService(h, name, user, enabled)
    case Units(Signal(pid, signal), user) => SignalProcess(h, pid, signal, user)
    case Allow(zone, service, user) => AllowFirewall(h, zone, service, user)
    case Publish(effect) => (Rules.ApplyEffect(h, effect), Done)
    case ChangeDir(dir) => SetCwd(h, dir)
    case Export(name, value) => (h.(env := h.env[name := value]), Done)
    case Unset(name) => (h.(env := h.env - {name}), Done)
    case NewUser(name, actor) => AddUser(R, h, name, actor)
    case Tick(delta) => (h.(clock := h.clock + delta), Done)
  }

  ghost function Step(R: Identity, m: Machine, op: Op): Machine
    requires Canonical(m.now.cwd)
  {
    if IsReset(op) then m.(now := m.initial) else m.(now := Perform(R, m.now, op).0)
  }

  ghost function Run(R: Identity, m: Machine, ops: seq<Op>): Machine
    requires Canonical(m.now.cwd) && Canonical(m.initial.cwd)
    decreases |ops|
  {
    if ops == [] then m
    else
      CwdStaysCanonical(R, m, ops[0]);
      Run(R, Step(R, m, ops[0]), ops[1..])
  }

  // ---- the working directory ----

  /** Unit operations touch units, table, journal and ports only. */
  ghost predicate SameRest(h: Host, after: Host) {
    after == h.(services := after.services, processes := after.processes, journal := after.journal,
                openPorts := after.openPorts)
  }

  lemma StartKeepsRest(h: Host, name: string, user: string)
    ensures SameRest(h, StartService(h, name, user).0)
  {}

  lemma StopKeepsRest(h: Host, name: string, user: string)
    ensures SameRest(h, StopService(h, name, user).0)
  {}

  lemma EnableKeepsRest(h: Host, name: string, user: string, enabled: bool)
    ensures SameRest(h, EnableService(h, name, user, enabled).0)
  {}

  lemma {:induction false} SignalKeepsRest(h: Host, rows: seq<Process>, pid: int, signal: string, user: string)
    ensures SameRest(h, SignalRows(h, rows, pid, signal, user).0)
    decreases |rows|
  {
    if rows != [] {
      match UnitOf(h, rows[0])
      case Nothing => SignalKeepsRest(h, rows[1..], pid, signal, user);
      case Just(name) =>
        SignalKeepsRest(h, rows[1..], pid, signal, user);
        SignalKeepsRest(Terminate(h, name, signal, user), rows[1..], pid, signal, user);
    }
  }

  lemma UnitsKeepRest(h: Host, initial: Host, op: ServiceOp, user: string)
    requires !op.ResetAll?
    ensures SameRest(h, StepService(h, initial, op, user))
  {
    match op
    case Start(name) => StartKeepsRest(h, name, user);
    case Stop(name) => StopKeepsRest(h, name, user);
    case Enable(name, enabled) => EnableKeepsRest(h, name, user, enabled);
    case Signal(pid, signal) => SignalKeepsRest(h, h.processes, pid, signal, user);
  }

  lemma UnitStep(R: Identity, m: Machine, op: Op)
    requires Canonical(m.now.cwd) && op.Units?
    ensures Step(R, m, op).now == StepService(m.now, m.initial, op.unit, op.user)
    ensures !IsReset(op) ==> SameRest(m.now, Step(R, m, op).now)
  {
    if !IsReset(op) { UnitsKeepRest(m.now, m.initial, op.unit, op.user); }
  }

  lemma CwdStaysCanonical(R: Identity, m: Machine, op: Op)
    requires Canonical(m.now.cwd) && Canonical(m.initial.cwd)
    ensures Canonical(Step(R, m, op).now.cwd) && Step(R, m, op).initial == m.initial
  {
    if !IsReset(op) {
      if op.Units? { UnitStep(R, m, op); }
    }
  }

  lemma RunNext(R: Identity, m: Machine, ops: seq<Op>, i: nat)
    requires Canonical(m.now.cwd) && Canonical(m.initial.cwd) && i < |ops|
    ensures Canonical(Step(R, m, ops[i]).now.cwd) && Step(R, m, ops[i]).initial == m.initial
    ensures Run(R, m, ops[i..]) == Run(R, Step(R, m, ops[i]), ops[i + 1..])
  {
    assert ops[i..][0] == ops[i] && ops[i..][1..] == ops[i + 1..];
    CwdStaysCanonical(R, m, ops[i]);
  }

  lemma RunNone(R: Identity, m: Machine, ops: seq<Op>)
    requires Canonical(m.now.cwd) && Canonical(m.initial.cwd) && ops == []
    ensures Run(R, m, ops) == m
  {}

  // ---- a new user in the tree ----

  /** An entry may be put below a directory, unless a regular file would replace one with entries. */
  lemma PlaceKeepsTree(files: Files, p: string, f: File)
    requires TreeInv(files) && Canonical(p) && p != "/" && f.path == p && Dir(p) in files && files[Dir(p)].directory
    requires f.directory || !HasChildren(files, p)
    ensures TreeInv(files[p := f])
  {
    hide TreeInv, Canonical, Dir, HasChildren;
    if p in files { TreeReplace(files, p, f); } else { TreeAdd(files, p, f); }
  }

  const DOT_FILES := {"/.bash_profile", "/.bashrc"}

  /** The home's parent is a directory, and nothing is below the files that come into the home. */
  ghost predicate RoomForHome(files: Files, name: string) {
    && Canonical(Home(name))
    && Dir(Home(name)) in files && files[Dir(Home(name))].directory
    && (forall n | n in DOT_FILES :: !HasChildren(files, Home(name) + n))
  }

  lemma HomeIsBelow(name: string)
    ensures Home(name) != "/" && |Home(name)| > 1
  {}

  /** A name below a path is a path, and the path is its parent. */
  lemma ChildOf(home: string, n: string)
    requires Canonical(home) && home != "/" && ValidPart(n)
    ensures Canonical(home + "/" + n) && Dir(home + "/" + n) == home && home + "/" + n != home && home + "/" + n != "/"
    ensures Dir(home) != home + "/" + n
  {
    var cs := Parts(home);
    PartsRender(cs);
    var all := cs + [n];
    assert all[..|cs|] == cs;
    NonRootParts(home);
    PartsRender(all);
    DirRender(all);
    ParentOf(home + "/" + n);
    ParentOf(home);
  }

  lemma DotFiles(home: string)
    requires Canonical(home) && home != "/"
    ensures var profile, rc := home + "/.bash_profile", home + "/.bashrc";
            && Canonical(profile) && Canonical(rc) && Dir(profile) == home && Dir(rc) == home && profile != rc
            && profile != home && rc != home && profile != "/" && rc != "/" && Dir(home) != profile && Dir(home) != rc
  {
    hide Canonical, Dir;
    assert ValidPart(".bash_profile") && ValidPart(".bashrc");
    assert home + "/" + ".bash_profile" == home + "/.bash_profile" && home + "/" + ".bashrc" == home + "/.bashrc";
    ChildOf(home, ".bash_profile");
    ChildOf(home, ".bashrc");
    assert |home + "/.bash_profile"| != |home + "/.bashrc"|;
  }

  lemma NoMoreChildren(files: Files, p: string, k: string, f: File)
    requires !HasChildren(files, p) && Dir(k) != p
    ensures !HasChildren(files[k := f], p)
  {}

  lemma InDotFiles()
    ensures "/.bash_profile" in DOT_FILES && "/.bashrc" in DOT_FILES
    ensures forall n | n in DOT_FILES :: n == "/.bash_profile" || n == "/.bashrc"
  {}

  lemma RoomKeepsHome(files: Files, name: string)
    requires TreeInv(files) && RoomForHome(files, name)
    ensures TreeInv(HomeFiles(files, name))
  {
    hide TreeInv, Canonical, Dir, Home, HasChildren, PROFILE_TEXT, RC_TEXT, DOT_FILES;
    var home := Home(name);
    var profile, rc := home + "/.bash_profile", home + "/.bashrc";
    HomeIsBelow(name);
    DotFiles(home);
    InDotFiles();
    var one := files[home := File(home, "", name, name, 0x1e8, "user_home_dir_t", true)];
    PlaceKeepsTree(files, home, one[home]);
    NoMoreChildren(files, profile, home, one[home]);
    NoMoreChildren(files, rc, home, one[home]);
    var two := one[profile := File(profile, PROFILE_TEXT, name, name, 0x1a4, "user_home_t", false)];
    PlaceKeepsTree(one, profile, two[profile]);
    NoMoreChildren(one, rc, profile, two[profile]);
    assert two[home] == one[home];
    PlaceKeepsTree(two, rc, File(rc, RC_TEXT, name, name, 0x1a4, "user_home_t", false));
  }

  lemma HomeNeedsRoom(files: Files, name: string)
    requires TreeInv(files) && TreeInv(HomeFiles(files, name))
    ensures RoomForHome(files, name)
  {
    hide Dir, Home, PROFILE_TEXT, RC_TEXT, DOT_FILES;
    var home := Home(name);
    var after := HomeFiles(files, name);
    HomeIsBelow(name);
    InDotFiles();
    assert Placed(after, home);
    DotFiles(home);
    ParentOf(home);
    assert Dir(home) in files;
    forall n | n in DOT_FILES ensures !HasChildren(files, home + n) {
      if HasChildren(files, home + n) {
        var k :| k in files && k != "/" && Dir(k) == home + n;
        ParentInTree(after, k);
      }
    }
  }

  /** The home entries of a new user keep the tree exactly when there is room for them, whatever the name. */
  lemma HomeExact(files: Files, name: string)
    requires TreeInv(files)
    ensures TreeInv(HomeFiles(files, name)) <==> RoomForHome(files, name)
  {
    hide TreeInv, HomeFiles;
    if RoomForHome(files, name) { RoomKeepsHome(files, name); }
    if TreeInv(HomeFiles(files, name)) { HomeNeedsRoom(files, name); }
  }

  lemma RewriteExact(files: Files, p: string, content: string)
    requires p in files ==> files[p].path == p
    ensures TreeInv(Rewritten(files, p, content)) <==> TreeInv(files)
  {
    hide TreeInv;
    if p in files {
      var g := Rewritten(files, p, content);
      assert files == g[p := g[p].(content := files[p].content)];
      if TreeInv(files) { ContentKeepsTree(files, p, content); }
      if TreeInv(g) { ContentKeepsTree(g, p, files[p].content); }
    }
  }

  lemma SyncExact(R: Identity, files: Files, users: map<string, User>)
    requires forall p | p in files :: files[p].path == p
    ensures TreeInv(SyncIdentity(R, files, users)) <==> TreeInv(files)
  {
    hide TreeInv, PASSWD, GROUP;
    RewriteExact(files, PASSWD, R.passwd(users));
    RewriteExact(Rewritten(files, PASSWD, R.passwd(users)), GROUP, R.group(users));
  }

  ghost predicate NewUserGuard(h: Host, name: string, actor: string) {
    actor == "root" && name != "" && name !in h.users ==> RoomForHome(h.files, name)
  }

  /** Adding a user keeps the tree exactly when it is refused or there is room for the home. */
  lemma NewUserExact(R: Identity, h: Host, name: string, actor: string)
    requires TreeInv(h.files)
    ensures TreeInv(AddUser(R, h, name, actor).0.files) <==> NewUserGuard(h, name, actor)
  {
    hide TreeInv, HomeFiles, RoomForHome, SyncIdentity, NextUid;
    HomeExact(h.files, name);
    HomeInPlace(h.files, name);
    var users := h.users[name := User(name, NextUid(h.users), NextUid(h.users), [name], "/bin/bash")];
    SyncExact(R, HomeFiles(h.files, name), users);
  }

  lemma HomeInPlace(files: Files, name: string)
    requires TreeInv(files)
    ensures forall p | p in HomeFiles(files, name) :: HomeFiles(files, name)[p].path == p
  {
    hide Home, PROFILE_TEXT, RC_TEXT, Canonical, Dir;
    forall p | p in files ensures files[p].path == p { assert Placed(files, p); }
  }

  /** `useradd x/y` is accepted, and without a directory `/home/x` it leaves no tree. */
  lemma NestedNameBreaks(R: Identity, h: Host, x: string, y: string)
    requires TreeInv(h.files) && ValidPart(x) && ValidPart(y) && Render(["home", x]) !in h.files && x + "/" + y !in h.users
    ensures AddUser(R, h, x + "/" + y, "root").1 == Done
    ensures !TreeInv(AddUser(R, h, x + "/" + y, "root").0.files)
  {
    hide TreeInv, SyncIdentity, HomeFiles, Dir, NextUid;
    var name := x + "/" + y;
    NestedHome(x, y);
    NewUserExact(R, h, name, "root");
  }

  lemma NestedHome(x: string, y: string)
    requires ValidPart(x) && ValidPart(y)
    ensures x + "/" + y != "" && Dir(Home(x + "/" + y)) == Render(["home", x])
  {
    hide Dir, Clean, Render;
    HomePart();
    var cs := ["home", x, y];
    assert cs[..2] == ["home", x];
    HomeOfTwo(x, y);
    DirRender(cs);
  }

  lemma HomePart()
    ensures ValidPart("home")
  {}

  lemma HomeOfTwo(x: string, y: string)
    ensures x + "/" + y != "" && Home(x + "/" + y) == Render(["home", x, y])
  {
    assert (x + "/" + y)[|x|] == '/';
    assert '/' in x + "/" + y && '/' !in "root";
    var cs := ["home", x, y];
    assert cs[..2] == ["home", x] && ["home", x][..1] == ["home"] && ["home"][..0] == [];
    assert Raw(["home"]) == "" + "/" + "home" == "/home";
    assert Raw(["home", x]) == "/home" + "/" + x;
    Slashes(x, y);
  }

  lemma Slashes(x: string, y: string)
    ensures "/home/" + (x + "/" + y) == "/home" + "/" + x + "/" + y
  {
    assert "/home/" == "/home" + "/";
  }

  // ---- every run of every operation ----

  /** The filesystem is a tree, the working directory a path, and the process table sound. */
  ghost predicate Sound(h: Host) { TreeInv(h.files) && Canonical(h.cwd) && Covered(h) }

  /** What the caller can look up beforehand. */
  ghost predicate Safe(h: Host, op: Op)
    requires Canonical(h.cwd)
  {
    match op
    case Files(file, user) => Guarded(h, file, user)
    case NewUser(name, actor) => NewUserGuard(h, name, actor)
    case _ => true
  }

  lemma CoveredByTable(h: Host, g: Host)
    requires Covered(h) && g.services == h.services && g.processes == h.processes
    ensures Covered(g)
  {
    var names :| Covers(h, names);
    assert Covers(g, names);
  }

  lemma NewUserSound(R: Identity, h: Host, name: string, actor: string)
    requires Sound(h)
    ensures Sound(AddUser(R, h, name, actor).0) <==> NewUserGuard(h, name, actor)
  {
    hide TreeInv, Canonical, NewUserGuard, SyncIdentity, HomeFiles, NextUid, Covered;
    NewUserExact(R, h, name, actor);
    CoveredByTable(h, AddUser(R, h, name, actor).0);
  }

  lemma FilesSound(h: Host, file: FileOp, user: string)
    requires Sound(h)
    ensures Sound(FileTheorems.Apply(h, file, user).0) <==> Guarded(h, file, user)
  {
    hide TreeInv, Canonical, Guarded, FileTheorems.Apply, Covered;
    ApplyExact(h, file, user);
    CoveredByTable(h, FileTheorems.Apply(h, file, user).0);
  }

  lemma OtherShape(R: Identity, h: Host, op: Op)
    requires Canonical(h.cwd) && !op.Files? && !op.Units? && !op.NewUser?
    ensures var after := Perform(R, h, op).0;
            after.files == h.files && after.services == h.services && after.processes == h.processes
  {}

  /** One operation keeps the machine sound exactly when its guard holds. */
  lemma StepExact(R: Identity, m: Machine, op: Op)
    requires Sound(m.now) && Sound(m.initial)
    ensures Sound(Step(R, m, op).now) <==> Safe(m.now, op)
  {
    hide TreeInv, Canonical, Guarded, NewUserGuard, FileTheorems.Apply, AddUser, Covered;
    match op
    case Files(file, user) => FilesSound(m.now, file, user);
    case Units(unit, user) =>
      UnitStep(R, m, op);
      StepKeepsCovered(m.now, m.initial, unit, user);
    case NewUser(name, actor) => NewUserSound(R, m.now, name, actor);
    case _ =>
      OtherShape(R, m.now, op);
      CwdStaysCanonical(R, m, op);
      CoveredByTable(m.now, Step(R, m, op).now);
  }

  ghost predicate SafeRun(R: Identity, m: Machine, ops: seq<Op>)
    requires Canonical(m.now.cwd) && Canonical(m.initial.cwd)
    decreases |ops|
  {
    ops == [] ||
    (Safe(m.now, ops[0]) &&
     (CwdStaysCanonical(R, m, ops[0]);
      SafeRun(R, Step(R, m, ops[0]), ops[1..])))
  }

  /** Whatever operations are interleaved, resets included: every reachable
      filesystem is a tree and every reachable process table is sound. */
  lemma {:induction false} RunKeepsSound(R: Identity, m: Machine, ops: seq<Op>)
    requires Sound(m.now) && Sound(m.initial) && SafeRun(R, m, ops)
    ensures var end := Run(R, m, ops); Sound(end.now) && TableSound(end.now) && end.initial == m.initial
    decreases |ops|
  {
    hide TreeInv, Canonical, Safe, Step, Covered, TableSound;
    if ops == [] {
      CoveredIsSound(m.now);
    } else {
      StepExact(R, m, ops[0]);
      CwdStaysCanonical(R, m, ops[0]);
      RunKeepsSound(R, Step(R, m, ops[0]), ops[1..]);
    }
  }

  /** The machine is sound after every operation of the run. */
  ghost predicate AlwaysSound(R: Identity, m: Machine, ops: seq<Op>)
    requires Canonical(m.now.cwd) && Canonical(m.initial.cwd)
    decreases |ops|
  {
    Sound(m.now) &&
    (ops == [] ||
     (CwdStaysCanonical(R, m, ops[0]);
      AlwaysSound(R, Step(R, m, ops[0]), ops[1..])))
  }

  /** The guards lose nothing: a run stays sound throughout exactly when all its guards hold. */
  lemma {:induction false} RunExact(R: Identity, m: Machine, ops: seq<Op>)
    requires Sound(m.now) && Sound(m.initial)
    ensures AlwaysSound(R, m, ops) <==> SafeRun(R, m, ops)
    decreases |ops|
  {
    hide TreeInv, Canonical, Safe, Step, Covered;
    if ops != [] {
      StepExact(R, m, ops[0]);
      CwdStaysCanonical(R, m, ops[0]);
      if Safe(m.now, ops[0]) {
        RunExact(R, Step(R, m, ops[0]), ops[1..]);
      } else {
        NotSound(R, Step(R, m, ops[0]), ops[1..]);
      }
    }
  }

  lemma NotSound(R: Identity, m: Machine, ops: seq<Op>)
    requires Canonical(m.now.cwd) && Canonical(m.initial.cwd) && !Sound(m.now)
    ensures !AlwaysSound(R, m, ops)
  {}

  // ---- published pages ----

  ghost predicate NoReset(ops: seq<Op>) { forall op | op in ops :: !IsReset(op) }

  /** `op` publishes a response under `url`. */
  predicate Republishes(op: Op, url: string) { op.Publish? && op.effect.SetHttp? && op.effect.url == url }

  lemma PageStep(R: Identity, m: Machine, op: Op, url: string)
    requires Canonical(m.now.cwd) && !IsReset(op) && url in m.now.http
    ensures var after := Step(R, m, op).now;
            url in after.http && (!Republishes(op, url) ==> after.http[url] == m.now.http[url])
  {
    hide Canonical;
    if op.Units? { UnitStep(R, m, op); }
  }

  /** Without a reset a published URL never disappears, and its response changes
      only when an effect publishes the same URL again. */
  lemma {:induction false} PagesStay(R: Identity, m: Machine, ops: seq<Op>, url: string)
    requires Canonical(m.now.cwd) && Canonical(m.initial.cwd) && NoReset(ops) && url in m.now.http
    ensures url in Run(R, m, ops).now.http
    ensures (forall op | op in ops :: !Republishes(op, url)) ==> Run(R, m, ops).now.http[url] == m.now.http[url]
    decreases |ops|
  {
    if ops != [] {
      assert ops[0] in ops;
      CwdStaysCanonical(R, m, ops[0]);
      PageStep(R, m, ops[0], url);
      PagesStay(R, Step(R, m, ops[0]), ops[1..], url);
    }
  }
}
