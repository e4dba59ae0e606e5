/** class State of internal/system/state.go as it is in memory: one object with
    maps that are objects too, and a snapshot that must share none of them. Every
    method is proved to do what the operation on values (modules FileTree, Services,
    Machine) says, and to leave the snapshot alone. */
module VirtualMachine {
  import opened Text
  import opened Host
  import opened Options
  import opened Paths
  import opened FileTree
  import FileTheorems
  import FileConservation
  import Services
  import Rules
  import M = Machine

  /** A Go map: shared by whoever holds the reference. */
  class Dict<V> {
    var m: map<string, V>

    constructor (m: map<string, V>)
      ensures this.m == m
    {
      this.m := m;
    }

    method Clone() returns (d: Dict<V>)
      ensures fresh(d) && d.m == m
    {
      d := new Dict<V>(map[]);
      var todo := m.Keys;
      while todo != {}
        invariant todo <= m.Keys
        invariant fresh(d) && d.m == map k | k in m && k !in todo :: m[k]
        decreases todo
      {
        var k :| k in todo;
        d.m := d.m[k := m[k]];
        todo := todo - {k};
      }
    }
  }

  datatype ZoneRef = ZoneRef(interfaces: seq<string>, services: Dict<bool>, ports: Dict<bool>)

  /** The zones' maps are these objects, one object per zone and kind. */
  ghost predicate OwnZones(m: map<string, ZoneRef>, maps: set<object>) {
    && (forall z | z in m :: m[z].services in maps && m[z].ports in maps)
    && (forall y, z | y in m && z in m :: m[y].services != m[z].ports)
    && (forall y, z | y in m && z in m && y != z :: m[y].services != m[z].services && m[y].ports != m[z].ports)
  }

  ghost function ZonesOf(m: map<string, ZoneRef>, maps: set<object>): map<string, Zone>
    requires OwnZones(m, maps)
    reads maps
  {
    map z | z in m :: Zone(m[z].interfaces, m[z].services.m, m[z].ports.m)
  }

  lemma OwnZonesAdd(m: map<string, ZoneRef>, maps: set<object>, z: string, v: ZoneRef)
    requires OwnZones(m, maps) && z !in m && v.services != v.ports && v.services !in maps && v.ports !in maps
    ensures OwnZones(m[z := v], maps + {v.services, v.ports})
  {}

  lemma ZonesOfAdd(m: map<string, ZoneRef>, maps: set<object>, z: string, v: ZoneRef)
    requires OwnZones(m, maps) && OwnZones(m[z := v], maps + {v.services, v.ports}) && z !in m
    ensures ZonesOf(m[z := v], maps + {v.services, v.ports})
         == ZonesOf(m, maps)[z := Zone(v.interfaces, v.services.m, v.ports.m)]
  {}

  /** One round of that loop: both maps of a zone are copied. */
  method AddClone(d: Dict<ZoneRef>, ghost maps: set<object>, z: string, v: ZoneRef) returns (ghost more: set<object>)
    requires OwnZones(d.m, maps) && d !in maps && z !in d.m
    modifies d
    ensures d !in more && maps <= more && fresh(more - maps) && OwnZones(d.m, more)
    ensures ZonesOf(d.m, more) == old(ZonesOf(d.m, maps))[z := old(Zone(v.interfaces, v.services.m, v.ports.m))]
  {
    hide OwnZones, ZonesOf;
    var services := v.services.Clone();
    var ports := v.ports.Clone();
    var c := v.(services := services, ports := ports);
    OwnZonesAdd(d.m, maps, z, c);
    ZonesOfAdd(d.m, maps, z, c);
    d.m := d.m[z := c];
    more := maps + {services, ports};
  }

  lemma ZonesAt(m: map<string, ZoneRef>, maps: set<object>)
    requires OwnZones(m, maps)
    ensures ZonesOf(m, maps).Keys == m.Keys
    ensures forall z | z in m :: m[z].services in maps && m[z].ports in maps
    ensures forall z | z in m :: ZonesOf(m, maps)[z] == Zone(m[z].interfaces, m[z].services.m, m[z].ports.m)
  {}

  lemma NoZones()
    ensures OwnZones(map[], {}) && ZonesOf(map[], {}) == map[]
  {}

  lemma LessTodo(value: map<string, Zone>, done: map<string, Zone>, todo: set<string>, z: string)
    requires z in todo && todo <= value.Keys && done == map y | y in value && y !in todo :: value[y]
    ensures done[z := value[z]] == map y | y in value && y !in todo - {z} :: value[y]
  {}

  /** The loop of cloneUnlocked over the zones. */
  method CloneZones(zones: Dict<ZoneRef>, ghost inner: set<object>) returns (d: Dict<ZoneRef>, ghost maps: set<object>)
    requires OwnZones(zones.m, inner)
    ensures fresh(d) && fresh(maps) && d !in maps && OwnZones(d.m, maps)
    ensures ZonesOf(d.m, maps) == ZonesOf(zones.m, inner)
  {
    hide OwnZones, ZonesOf;
    ghost var value := ZonesOf(zones.m, inner);
    var source := zones.m;
    ZonesAt(source, inner);
    NoZones();
    d := new Dict<ZoneRef>(map[]);
    maps := {};
    var todo := source.Keys;
    while todo != {}
      invariant todo <= source.Keys && fresh(d) && fresh(maps) && d !in maps
      invariant OwnZones(d.m, maps)
      invariant ZonesOf(d.m, maps) == map z | z in value && z !in todo :: value[z]
      decreases todo
    {
      var z :| z in todo;
      ZonesAt(d.m, maps);
      LessTodo(value, ZonesOf(d.m, maps), todo, z);
      maps := AddClone(d, maps, z, source[z]);
      todo := todo - {z};
    }
  }

  method MakeTables(h: Host) returns (f: Dict<File>, u: Dict<User>, s: Dict<Service>, d: Dict<string>)
    ensures fresh(f) && fresh(u) && fresh(s) && fresh(d)
    ensures f.m == h.files && u.m == h.users && s.m == h.services && d.m == h.dns
  {
    f := new Dict<File>(h.files);
    u := new Dict<User>(h.users);
    s := new Dict<Service>(h.services);
    d := new Dict<string>(h.dns);
  }

  method MakeViews(h: Host) returns (o: Dict<bool>, w: Dict<HTTPResponse>, p: Dict<string>, e: Dict<string>)
    ensures fresh(o) && fresh(w) && fresh(p) && fresh(e) && p != e
    ensures o.m == h.openPorts && w.m == h.http && p.m == h.packages && e.m == h.env
  {
    o := new Dict<bool>(h.openPorts);
    w := new Dict<HTTPResponse>(h.http);
    p := new Dict<string>(h.packages);
    e := new Dict<string>(h.env);
  }

  /** NewState's loop over the zones. */
  method MakeZones(zones: map<string, Zone>) returns (d: Dict<ZoneRef>, ghost maps: set<object>)
    ensures fresh(d) && fresh(maps) && d !in maps && OwnZones(d.m, maps)
    ensures ZonesOf(d.m, maps) == zones
  {
    hide OwnZones, ZonesOf;
    d := new Dict<ZoneRef>(map[]);
    maps := {};
    var todo := zones.Keys;
    NoZones();
    while todo != {}
      invariant todo <= zones.Keys && fresh(d) && fresh(maps) && d !in maps
      invariant OwnZones(d.m, maps)
      invariant ZonesOf(d.m, maps) == map z | z in zones && z !in todo :: zones[z]
      decreases todo
    {
      var z :| z in todo;
      ZonesAt(d.m, maps);
      LessTodo(zones, ZonesOf(d.m, maps), todo, z);
      var services := new Dict<bool>(zones[z].services);
      var ports := new Dict<bool>(zones[z].ports);
      var v := ZoneRef(zones[z].interfaces, services, ports);
      OwnZonesAdd(d.m, maps, z, v);
      ZonesOfAdd(d.m, maps, z, v);
      d.m := d.m[z := v];
      maps := maps + {services, ports};
      todo := todo - {z};
    }
  }

  /** The write of AllowFirewall changes this zone and no other. */
  method AllowIn(m: map<string, ZoneRef>, ghost maps: set<object>, zone: string, service: string)
    requires OwnZones(m, maps) && zone in m && m[zone].services in maps
    modifies m[zone].services
    ensures ZonesOf(m, maps) == var before := old(ZonesOf(m, maps));
              if zone in before then before[zone := before[zone].(services := before[zone].services[service := true])] else before
  {
    var z := m[zone];
    z.services.m := z.services.m[service := true];
  }

  class State {
    var hostname: string
    var clock: int
    var files: Dict<File>
    var users: Dict<User>
    var services: Dict<Service>
    var processes: seq<Process>
    var journal: seq<JournalEntry>
    var addresses: seq<string>
    var dns: Dict<string>
    var zones: Dict<ZoneRef>
    var openPorts: Dict<bool>
    var http: Dict<HTTPResponse>
    var selinux: string
    var packages: Dict<string>
    var env: Dict<string>
    var currentUser: string
    var cwd: string
    var initial: State?
    /** The zones' maps, and all the objects this machine is made of. */
    ghost var inner: set<object>
    ghost var own: set<object>

    /** The struct literal of a state without snapshot; the last argument lists the zones' maps. */
    constructor Literal(hostname: string, clock: int, processes: seq<Process>, journal: seq<JournalEntry>,
                        addresses: seq<string>, selinux: string, currentUser: string, cwd: string,
                        files: Dict<File>, users: Dict<User>, services: Dict<Service>, dns: Dict<string>,
                        zones: Dict<ZoneRef>, openPorts: Dict<bool>, http: Dict<HTTPResponse>,
                        packages: Dict<string>, env: Dict<string>, ghost inner: set<object>)
      ensures this.files == files && this.users == users && this.services == services && this.dns == dns
      ensures this.zones == zones && this.openPorts == openPorts && this.http == http
      ensures this.packages == packages && this.env == env && this.inner == inner && initial == null
      ensures own == {this, files, users, services, dns, zones, openPorts, http, packages, env} + inner
      ensures this.hostname == hostname && this.clock == clock && this.processes == processes
      ensures this.journal == journal && this.addresses == addresses && this.selinux == selinux
      ensures this.currentUser == currentUser && this.cwd == cwd
    {
      this.hostname, this.clock, this.processes, this.journal := hostname, clock, processes, journal;
      this.addresses, this.selinux, this.currentUser, this.cwd := addresses, selinux, currentUser, cwd;
      this.files, this.users, this.services, this.dns, this.zones := files, users, services, dns, zones;
      this.openPorts, this.http, this.packages, this.env := openPorts, http, packages, env;
      this.inner, initial := inner, null;
      own := {this, files, users, services, dns, zones, openPorts, http, packages, env} + inner;
    }

    /** No two names for one map. */
    ghost predicate Apart()
      reads this, zones
    {
      && env != dns && env != packages && dns != packages
      && this in own && files in own && users in own && services in own && dns in own && zones in own
      && openPorts in own && http in own && packages in own && env in own && inner <= own
      && this !in inner && files !in inner && users !in inner && services !in inner && dns !in inner && zones !in inner
      && openPorts !in inner && http !in inner && packages !in inner && env !in inner
      && OwnZones(zones.m, inner)
    }

    ghost function ZonesValue(): map<string, Zone>
      requires Apart()
      reads this, zones, inner
    {
      ZonesOf(zones.m, inner)
    }

    ghost function Value(): Host
      requires Apart()
      reads this, zones, own
    {
      Host(hostname, clock, files.m, users.m, services.m, processes, journal, addresses, dns.m, ZonesValue(),
           openPorts.m, http.m, selinux, packages.m, env.m, currentUser, cwd)
    }

    /** The snapshot is a whole machine of its own: it shares no map with this one. */
    ghost predicate Isolated()
      reads this, initial, if initial == null then {} else {initial.zones}
    {
      initial != null ==> initial.Apart() && Canonical(initial.cwd) && initial.own !! own
    }

    ghost predicate Valid()
      reads this, zones, initial, if initial == null then {} else {initial.zones}
    {
      Apart() && Canonical(cwd) && Isolated()
    }

    ghost function Snapshot(): Host
      requires Isolated() && initial != null
      reads this, initial, if initial == null then {} else {initial.zones}, if initial == null then {} else initial.own
    {
      initial.Value()
    }

    /** The machine now holds `h`, and the snapshot holds what it held. */
    twostate predicate Becomes(h: Host)
      requires old(Valid())
      reads this, zones, own, initial, if initial == null then {} else {initial.zones}, if initial == null then {} else initial.own
    {
      && Valid() && Value() == h && initial == old(initial)
      && (initial != null ==> Snapshot() == old(Snapshot()))
    }

    /** The same map objects as before. */
    twostate predicate SameMaps()
      reads this
    {
      && files == old(files) && users == old(users) && services == old(services) && dns == old(dns)
      && zones == old(zones) && openPorts == old(openPorts) && http == old(http) && packages == old(packages)
      && env == old(env) && inner == old(inner) && own == old(own)
    }

    twostate lemma SnapshotKept()
      requires old(Isolated()) && initial == old(initial) && SameMaps()
      requires initial != null ==> unchanged(initial) && unchanged(initial.own)
      ensures Isolated()
      ensures initial != null ==> Snapshot() == old(Snapshot())
    {
    }

    twostate lemma Untouched()
      requires old(Apart()) && unchanged(this) && unchanged(own)
      ensures Apart() && Value() == old(Value()) && own == old(own)
    {}

    /** No zone was written. */
    twostate lemma ZonesKept()
      requires old(Apart()) && SameMaps() && unchanged(zones, inner)
      ensures Apart() && ZonesValue() == old(ZonesValue())
    {}

    // ---- cloning ----

    method CloneTables() returns (f: Dict<File>, u: Dict<User>, s: Dict<Service>, d: Dict<string>)
      ensures fresh(f) && fresh(u) && fresh(s) && fresh(d)
      ensures f.m == files.m && u.m == users.m && s.m == services.m && d.m == dns.m
    {
      f := files.Clone();
      u := users.Clone();
      s := services.Clone();
      d := dns.Clone();
    }

    method CloneViews() returns (o: Dict<bool>, w: Dict<HTTPResponse>, p: Dict<string>, e: Dict<string>)
      ensures fresh(o) && fresh(w) && fresh(p) && fresh(e) && p != e
      ensures o.m == openPorts.m && w.m == http.m && p.m == packages.m && e.m == env.m
    {
      o := openPorts.Clone();
      w := http.Clone();
      p := packages.Clone();
      e := env.Clone();
    }

    method CloneUnlocked() returns (c: State)
      requires Apart()
      ensures fresh(c) && fresh(c.own) && c.Apart() && c.Value() == Value() && c.initial == null
    {
      var f, u, s, d := CloneTables();
      var z, maps := CloneZones(zones, inner);
      var o, w, p, e := CloneViews();
      c := new State.Literal(hostname, clock, processes, journal, addresses, selinux, currentUser, cwd,
                             f, u, s, d, z, o, w, p, e, maps);
    }

    ghost predicate SameFields(from: State)
      reads this, from
    {
      && hostname == from.hostname && clock == from.clock && files == from.files && users == from.users
      && services == from.services && processes == from.processes && journal == from.journal && dns == from.dns
      && zones == from.zones && openPorts == from.openPorts && http == from.http && addresses == from.addresses
      && selinux == from.selinux && packages == from.packages && env == from.env && inner == from.inner
      && own == from.own + {this} && currentUser == from.currentUser && cwd == from.cwd
    }

    lemma SameFieldsSameValue(from: State)
      requires from.Apart() && SameFields(from) && this !in from.own
      ensures Apart() && Value() == from.Value()
    {}

    method AdoptTables(from: State)
      requires this != from
      modifies `files, `users, `services, `dns, `zones, `openPorts, `http, `packages, `env, `inner
      ensures files == from.files && users == from.users && services == from.services && dns == from.dns
      ensures zones == from.zones && openPorts == from.openPorts && http == from.http && packages == from.packages
      ensures env == from.env && inner == from.inner
    {
      files, users, services, dns, zones := from.files, from.users, from.services, from.dns, from.zones;
      openPorts, http, packages, env, inner := from.openPorts, from.http, from.packages, from.env, from.inner;
    }

    method AdoptRest(from: State, snapshot: State)
      requires this != from
      modifies `hostname, `clock, `processes, `journal, `addresses, `selinux, `currentUser, `cwd, `initial, `own
      ensures hostname == from.hostname && clock == from.clock && processes == from.processes
      ensures journal == from.journal && addresses == from.addresses && selinux == from.selinux
      ensures currentUser == from.currentUser && cwd == from.cwd && initial == snapshot && own == from.own + {this}
    {
      hostname, clock, processes, journal := from.hostname, from.clock, from.processes, from.journal;
      addresses, selinux, currentUser, cwd := from.addresses, from.selinux, from.currentUser, from.cwd;
      initial, own := snapshot, from.own + {this};
    }

    /** Take over every field of `from`, and `snapshot` as the snapshot. */
    method Adopt(from: State, snapshot: State)
      requires from.Apart() && this !in from.own
      modifies this
      ensures Apart() && Value() == old(from.Value()) && initial == snapshot && own == old(from.own) + {this}
    {
      hide ZonesValue, OwnZones;
      AdoptTables(from);
      AdoptRest(from, snapshot);
      SameFieldsSameValue(from);
    }

    method TwoClones(from: State) returns (first: State, second: State)
      requires from.Apart()
      ensures fresh(first) && fresh(first.own) && first.Apart() && first.Value() == from.Value()
      ensures fresh(second) && fresh(second.own) && second.Apart() && second.Value() == from.Value()
      ensures first.own !! second.own
    {
      first := from.CloneUnlocked();
      second := from.CloneUnlocked();
    }

    method Restore()
      requires Valid() && initial != null
      modifies this
      ensures Apart() && initial != null && initial.Apart() && initial.own !! own
      ensures fresh(own - {this}) && fresh(initial.own)
      ensures Value() == old(Snapshot()) && initial.Value() == old(Snapshot())
    {
      hide Value, ZonesValue, Canonical, OwnZones;
      var first, second := TwoClones(initial);
      label Cloned:
      assert this !in first.own && this !in second.own;
      Adopt(first, second);
      second.Untouched@Cloned();
    }

    method Reset() returns (r: Outcome)
      requires Valid()
      modifies this
      ensures Valid() && fresh(own - old(own))
      ensures old(initial) == null ==> r == Failed(SnapshotUnavailable) && initial == null && Value() == old(Value())
      ensures old(initial) != null ==>
                && r == Done && initial != null && fresh(initial.own)
                && Value() == old(Snapshot()) && Snapshot() == old(Snapshot())
    {
      if initial == null { return Failed(SnapshotUnavailable); }
      Restore();
      assert cwd == Value().cwd;
      r := Done;
    }

    // ---- files ----

    predicate CanReadLocked(file: File, user: string)
      reads `users, users
    {
      ReadableIn(users.m, file, user)
    }

    predicate CanWriteLocked(file: File, user: string)
      reads `users, users
    {
      WritableIn(users.m, file, user)
    }

    function PrimaryGroupLocked(user: string): string
      reads `users, users
    {
      PrimaryGroupIn(users.m, user)
    }

    /** The result of an operation on the file table alone. */
    twostate lemma FilesWritten(after: Files)
      requires old(Valid()) && unchanged(this) && unchanged(own - {files}) && files.m == after
      requires initial != null ==> unchanged(initial) && unchanged(initial.own)
      ensures Becomes(old(Value()).(files := after))
    {
      ZonesKept();
      SnapshotKept();
    }

    method EnsureParents(p: string)
      requires Canonical(p)
      modifies files
      ensures files.m == FileTree.EnsureParents(old(files.m), p)
    {
      ParentOf(p);
      var current := Dir(p);
      ghost var q := p;
      while current != "." && current != "/"
        invariant Canonical(q) && current == Dir(q)
        invariant FileTree.EnsureParents(files.m, q) == FileTree.EnsureParents(old(files.m), p)
        decreases |Parts(q)|
      {
        if current !in files.m { files.m := files.m[current := RootDirectory(current)]; }
        ParentOf(q);
        q := current;
        ParentOf(q);
        current := Dir(current);
      }
      ParentOf(q);
    }

    method WriteFile(filename: string, content: string, user: string, appendMode: bool) returns (r: Outcome)
      requires Valid()
      modifies files
      ensures r == FileTree.WriteFile(old(Value()), filename, content, user, appendMode).1
      ensures files.m == FileTree.WriteFile(old(Value()), filename, content, user, appendMode).0.files
    {
      hide Apart, ZonesValue, NormalizePath, Canonical, Dir, FileTree.EnsureParents, FileTree.WriteFile, FileTree.Create;
      ghost var h := Value();
      WrittenOver(h, filename, content, user, appendMode);
      WrittenNew(h, filename, content, user, appendMode);
      Named(h, filename);
      var n := NormalizePath(filename, cwd);
      if !n.Ok? { return Failed(PathEmpty); }
      var p, text := n.path, content;
      if p in files.m {
        var existing := files.m[p];
        if !CanWriteLocked(existing, user) { return Failed(PermissionDenied); }
        if appendMode { text := existing.content + content; }
      } else {
        Created(h, p, File(p, content, user, PrimaryGroupIn(h.users, user), 0x1a4, "", false), user);
        EnsureParents(p);
        if user != "root" && !CanWriteLocked(Lookup(files.m, Dir(p)), user) { return Failed(PermissionDenied); }
        files.m := files.m[p := File(p, "", user, PrimaryGroupLocked(user), 0x1a4, "", false)];
      }
      files.m := files.m[p := files.m[p].(content := text)];
      r := Done;
    }

    method Touch(filename: string, user: string) returns (r: Outcome)
      requires Valid()
      modifies files
      ensures r == FileTree.Touch(old(Value()), filename, user).1
      ensures files.m == FileTree.Touch(old(Value()), filename, user).0.files
    {
      hide Apart, ZonesValue, NormalizePath, Canonical, Dir, FileTree.EnsureParents, FileTree.Touch, FileTree.Create;
      ghost var h := Value();
      Touched(h, filename, user);
      Named(h, filename);
      var n := NormalizePath(filename, cwd);
      if !n.Ok? { return Failed(PathEmpty); }
      var p := n.path;
      if p in files.m { return Done; }
      Created(h, p, NewRegular(h, p, user), user);
      EnsureParents(p);
      var parent := Lookup(files.m, Dir(p));
      if !CanWriteLocked(parent, user) { return Failed(PermissionDenied); }
      files.m := files.m[p := File(p, "", user, PrimaryGroupLocked(user), 0x1a4, "", false)];
      r := Done;
    }

    method MakeDir(filename: string, user: string) returns (r: Outcome)
      requires Valid()
      modifies files
      ensures r == FileTree.MakeDir(old(Value()), filename, user).1
      ensures files.m == FileTree.MakeDir(old(Value()), filename, user).0.files
    {
      hide Apart, ZonesValue, NormalizePath, Canonical, Dir;
      ghost var h := Value();
      Named(h, filename);
      var n := NormalizePath(filename, cwd);
      if !n.Ok? { return Failed(PathEmpty); }
      var p := n.path;
      if p in files.m { return Failed(FileExists); }
      var parent := Lookup(files.m, Dir(p));
      if !CanWriteLocked(parent, user) { return Failed(PermissionDenied); }
      files.m := files.m[p := File(p, "", user, PrimaryGroupLocked(user), 0x1ed, "", true)];
      r := Done;
    }

    method Remove(filename: string, user: string) returns (r: Outcome)
      requires Valid()
      modifies files
      ensures r == FileTree.Remove(old(Value()), filename, user).1
      ensures files.m == FileTree.Remove(old(Value()), filename, user).0.files
    {
      hide Apart, ZonesValue, NormalizePath, Canonical, Dir, Under;
      ghost var h := Value();
      Named(h, filename);
      var n := NormalizePath(filename, cwd);
      if !n.Ok? { return Failed(PathEmpty); }
      var p := n.path;
      if p !in files.m { return Failed(NotFound); }
      var file := files.m[p];
      if p == "/" { return Failed(VirtualRoot); }
      if !CanWriteLocked(Lookup(files.m, Dir(p)), user) { return Failed(PermissionDenied); }
      if file.directory {
        DeleteSubtree(p);
      } else {
        files.m := files.m - {p};
      }
      r := Done;
    }

    method MakeDirAll(filename: string, user: string) returns (r: Outcome)
      requires Valid()
      modifies files
      ensures r == FileTree.MakeDirAll(old(Value()), filename, user).1
      ensures files.m == FileTree.MakeDirAll(old(Value()), filename, user).0.files
    {
      hide Apart, ZonesValue, NormalizePath, Canonical, Dir, Split, MakeDirs;
      ghost var h := Value();
      Named(h, filename);
      var n := NormalizePath(filename, cwd);
      if !n.Ok? { return Failed(PathEmpty); }
      var p := n.path;
      if p in files.m {
        if files.m[p].directory { return Done; }
        return Failed(FileExists);
      }
      r := MakeComponents(h, Split(WithoutSlash(p)), user);
    }

    /** The loop of MakeDirAll. */
    method MakeComponents(ghost h: Host, parts: seq<string>, user: string) returns (r: Outcome)
      requires h.files == files.m && h.users == users.m
      modifies files
      ensures r == MakeDirs(h, parts, 0, user).1
      ensures files.m == MakeDirs(h, parts, 0, user).0.files
    {
      hide Dir, WritableIn, PrimaryGroupIn;
      var current := "";
      for i := 0 to |parts|
        invariant current == Raw(parts[..i])
        invariant MakeDirs(h.(files := files.m), parts, i, user) == MakeDirs(h, parts, 0, user)
      {
        RawNext(parts, i);
        current := current + "/" + parts[i];
        if current in files.m {
          if !files.m[current].directory { return Failed(NotADirectory); }
        } else {
          var parent := Lookup(files.m, Dir(current));
          if !CanWriteLocked(parent, user) { return Failed(PermissionDenied); }
          files.m := files.m[current := File(current, "", user, PrimaryGroupLocked(user), 0x1ed, "", true)];
        }
      }
      r := Done;
    }

    method CopyRecursive(source: string, destination: string, user: string, move: bool, recursive: bool) returns (r: Outcome)
      requires Valid()
      modifies files
      ensures r == FileTree.CopyRecursive(old(Value()), source, destination, user, move, recursive).1
      ensures files.m == FileTree.CopyRecursive(old(Value()), source, destination, user, move, recursive).0.files
    {
      hide Apart, ZonesValue, NormalizePath, Canonical, Dir, Under, FileTree.EnsureParents, CopyInto, JoinPath, Base;
      ghost var h := Value();
      Named(h, source);
      Named(h, destination);
      var n, m := NormalizePath(source, cwd), NormalizePath(destination, cwd);
      if !n.Ok? { return Failed(PathEmpty); }
      if !m.Ok? { return Failed(PathEmpty); }
      var src, dst := n.path, m.path;
      if src !in files.m { return Failed(NotFound); }
      var file := files.m[src];
      if file.directory && !move && !recursive { return Failed(OmittingDirectory); }
      if src == "/" { return Failed(VirtualRoot); }
      if !CanReadLocked(file, user) && user != "root" { return Failed(PermissionDenied); }
      TargetCanonical(files.m, src, dst);
      if dst in files.m && files.m[dst].directory { dst := JoinPath(dst, Base(src)); }
      if dst == src { return Failed(SameFile); }
      if file.directory && Under(src, dst) { return Failed(IntoItself); }
      EnsureParents(dst);
      var parent := Lookup(files.m, Dir(dst));
      if user != "root" && !CanWriteLocked(parent, user) { return Failed(PermissionDenied); }
      if dst in files.m && user != "root" && !CanWriteLocked(files.m[dst], user) { return Failed(PermissionDenied); }
      CopySubtree(file, src, dst, move);
      r := Done;
    }

    /** The writing half of CopyRecursive. */
    method CopySubtree(file: File, src: string, dst: string, move: bool)
      modifies files
      ensures files.m == CopyInto(old(files.m), file, src, dst, move)
    {
      hide Under, CopyEntries, WithoutSubtree;
      ghost var before := files.m;
      SubtreeNamesExtend(before, src);
      if !file.directory {
        files.m := files.m[dst := file.(path := dst)];
      } else {
        var paths := SubtreePaths(src);
        var names := Sorted(paths);
        assert paths == SubtreeKeys(before, src);
        WriteEntries(names, src, dst);
      }
      if move { DeleteSubtree(src); }
    }

    method SubtreePaths(src: string) returns (paths: set<string>)
      ensures paths == SubtreeKeys(files.m, src)
    {
      hide Under;
      var todo := files.m.Keys;
      paths := {};
      while todo != {}
        invariant todo <= files.m.Keys
        invariant paths == set k | k in files.m && k !in todo && Under(src, k)
        decreases todo
      {
        var name :| name in todo;
        if Under(src, name) { paths := paths + {name}; }
        todo := todo - {name};
      }
    }

    method WriteEntries(names: seq<string>, src: string, dst: string)
      requires forall n | n in names :: n in files.m && src <= n
      modifies files
      ensures files.m == CopyEntries(old(files.m), names, src, dst)
    {
      hide Clean;
      ghost var before := files.m;
      for i := 0 to |names|
        invariant forall n | n in names :: n in files.m && src <= n
        invariant forall n | n in names[i..] :: n in names
        invariant CopyEntries(files.m, names[i..], src, dst) == CopyEntries(before, names, src, dst)
      {
        assert names[i] in names && names[i..][0] == names[i] && names[i..][1..] == names[i + 1..];
        var entry := files.m[names[i]];
        var relative := names[i][|src|..];
        entry := entry.(path := Clean(dst + "/" + relative));
        files.m := files.m[entry.path := entry];
      }
    }

    /** Any one filesystem operation: the machine becomes what the operation says,
        and its snapshot stays what it was. */
    method FileOperation(op: FileTheorems.FileOp, user: string) returns (r: Outcome)
      requires Valid()
      modifies files
      ensures r == FileTheorems.Apply(old(Value()), op, user).1
      ensures Becomes(FileTheorems.Apply(old(Value()), op, user).0)
    {
      hide Canonical, FileTree.WriteFile, FileTree.Touch, FileTree.MakeDir, FileTree.MakeDirAll, FileTree.Remove, FileTree.CopyRecursive;
      ghost var h := Value();
      match op {
        case Write(name, content, append) => r := WriteFile(name, content, user, append);
        case TouchOp(name) => r := Touch(name, user);
        case MakeDirOp(name) => r := MakeDir(name, user);
        case MakeDirAllOp(name) => r := MakeDirAll(name, user);
        case RemoveOp(name) => r := Remove(name, user);
        case CopyOp(source, destination, move, recursive) => r := CopyRecursive(source, destination, user, move, recursive);
      }
      FilesWritten(FileTheorems.Apply(h, op, user).0.files);
    }

    method VirtualUsage() returns (bytes: nat, inodes: nat)
      ensures inodes == |files.m|
      ensures bytes == FileConservation.BytesOf(files.m, files.m.Keys)
    {
      bytes, inodes := 0, 0;
      var todo := files.m.Keys;
      while todo != {}
        invariant todo <= files.m.Keys && inodes + |todo| == |files.m|
        invariant bytes + FileConservation.BytesOf(files.m, todo) == FileConservation.BytesOf(files.m, files.m.Keys)
        decreases todo
      {
        var name :| name in todo;
        FileConservation.CountFirst(files.m, todo, name);
        inodes, bytes := inodes + 1, bytes + ByteLen(files.m[name].content);
        todo := todo - {name};
      }
    }

    /** The deleting loops of Remove and CopyRecursive: `p` and every key below it. */
    method DeleteSubtree(p: string)
      modifies files
      ensures files.m == WithoutSubtree(old(files.m), p)
    {
      hide Under;
      var todo := files.m.Keys;
      ghost var before := files.m;
      while todo != {}
        invariant todo <= before.Keys
        invariant files.m == map k | k in before && (k in todo || !Under(p, k)) :: before[k]
        decreases todo
      {
        var name :| name in todo;
        if Under(p, name) { files.m := files.m - {name}; }
        todo := todo - {name};
      }
    }

    // ---- services ----

    /** Units, process table, journal and ports may have been written. */
    twostate lemma UnitsWritten()
      requires old(Valid()) && SameMaps() && initial == old(initial)
      requires unchanged(`hostname, `clock, `addresses, `selinux, `currentUser, `cwd)
      requires unchanged(own - {this, services, openPorts})
      requires initial != null ==> unchanged(initial) && unchanged(initial.own)
      ensures Becomes(old(Value()).(services := services.m, processes := processes, journal := journal, openPorts := openPorts.m))
    {
      ZonesKept();
      SnapshotKept();
    }

    /** Units, table, journal and ports are those of `h`. */
    ghost predicate UnitFields(h: Host)
      reads `services, services, `processes, `journal, `openPorts, openPorts
    {
      services.m == h.services && processes == h.processes && journal == h.journal && openPorts.m == h.openPorts
    }

    predicate ConditionLocked(c: StartCondition)
      requires Apart()
      reads this, own
      ensures ConditionLocked(c) == Services.Holds(Value(), c)
    {
      ZonesAt(zones.m, inner);
      match c
      case FileContains(path, pattern) => path in files.m && Contains(files.m[path].content, pattern)
      case SelinuxAllows => selinux != "disabled"
      case ServiceRunning(name) => name in services.m && services.m[name].state == Services.RUNNING
      case FirewallServiceAllowed(zone, service) =>
        zone in zones.m && service in zones.m[zone].services.m && zones.m[zone].services.m[service]
      case UnknownCondition => false
    }

    method AppendJournal(actor: string, unit: string, priority: string, message: string)
      modifies `journal
      ensures journal == old(journal) + [JournalEntry(clock, priority, unit, message, actor)]
    {
      journal := journal + [JournalEntry(clock, priority, unit, message, actor)];
    }

    method RebuildProcesses()
      modifies `processes
      ensures processes == Services.Table(Services.RunningNames(services.m))
    {
      var running := RunningUnits();
      var names := Sorted(running);
      processes := [Services.INIT];
      for index := 0 to |names|
        invariant processes == [Services.INIT] + Services.Rows(names[..index])
      {
        RowsNext(names, index);
        processes := processes + [Services.Row(index, names[index])];
      }
      assert names[..|names|] == names;
    }

    method RunningUnits() returns (running: set<string>)
      ensures running == Services.RunningNames(services.m)
    {
      var todo := services.m.Keys;
      running := {};
      while todo != {}
        invariant todo <= services.m.Keys
        invariant running == set name | name in services.m && name !in todo && Services.IsRunning(services.m, name)
        decreases todo
      {
        var name :| name in todo;
        if services.m[name].state == Services.RUNNING { running := running + {name}; }
        todo := todo - {name};
      }
    }

    /** refreshServiceEffectsLocked: the web ports of every address, once a zone allows http. */
    method RefreshServiceEffects(name: string)
      requires OwnZones(zones.m, inner) && openPorts !in inner
      modifies openPorts
      ensures openPorts.m == Opened(old(openPorts.m), Services.IsWeb(name) && Services.IsRunning(services.m, name)
                                                      && Services.WebAllowed(old(ZonesOf(zones.m, inner))), addresses)
    {
      hide Services.WebPorts, Services.WebAllowed, OwnZones, ZonesOf;
      if name != "httpd.service" && name != "httpd" { return; }
      if !Services.IsRunning(services.m, name) { return; }
      OpenForZones();
    }

    /** The loop over the zones: the same ports again for each zone that allows http. */
    method OpenForZones()
      requires OwnZones(zones.m, inner) && openPorts !in inner
      modifies openPorts
      ensures openPorts.m == Opened(old(openPorts.m), Services.WebAllowed(old(ZonesOf(zones.m, inner))), addresses)
    {
      hide ZonesOf, OwnZones, Opened, Allows;
      ghost var value := ZonesOf(zones.m, inner);
      ghost var allowed := set z | z in value && Allows(value[z]);
      ghost var before := openPorts.m;
      ZonesAt(zones.m, inner);
      var todo := zones.m.Keys;
      NotOpened(before, addresses);
      while todo != {}
        invariant todo <= zones.m.Keys
        invariant OwnZones(zones.m, inner) && ZonesOf(zones.m, inner) == value
        invariant openPorts.m == Opened(before, allowed - todo != {}, addresses)
        decreases todo
      {
        var zone :| zone in todo;
        ZonesAt(zones.m, inner);
        OpenedAgain(before, allowed - todo != {}, Allows(value[zone]), addresses);
        OpenForZone(zones.m[zone]);
        MoreAllowed(allowed, todo, zone);
        todo := todo - {zone};
      }
      WebAllows(value);
    }

    method OpenForZone(z: ZoneRef)
      requires z.services != openPorts
      modifies openPorts
      ensures openPorts.m == Opened(old(openPorts.m), Allows(Zone(z.interfaces, z.services.m, z.ports.m)), addresses)
    {
      hide Services.WebPorts;
      if "http" in z.services.m && z.services.m["http"] { OpenWebPorts(); }
    }

    method OpenWebPorts()
      modifies openPorts
      ensures openPorts.m == old(openPorts.m) + Services.WebPorts(addresses)
    {
      hide Split, Services.WebPorts;
      ghost var before := openPorts.m;
      NoWebPorts();
      for i := 0 to |addresses|
        invariant openPorts.m == before + Services.WebPorts(addresses[..i])
      {
        WebPortsNext(addresses, i);
        openPorts.m := openPorts.m[Split(addresses[i])[0] + ":80" := true];
      }
      assert addresses[..|addresses|] == addresses;
    }

    method ClearServiceEffects(name: string)
      modifies openPorts
      ensures openPorts.m == Withdrawn(old(openPorts.m), name)
    {
      if name != "httpd.service" && name != "httpd" { return; }
      hide Services.EndsWithWebPort;
      var todo := openPorts.m.Keys;
      ghost var before := openPorts.m;
      while todo != {}
        invariant todo <= before.Keys
        invariant openPorts.m == map k | k in before && (k in todo || !Services.EndsWithWebPort(k)) :: before[k]
        decreases todo
      {
        var key :| key in todo;
        if Services.EndsWithWebPort(key) { openPorts.m := openPorts.m - {key}; }
        todo := todo - {key};
      }
    }


    /** The condition loop of StartService. */
    method ConditionsHold(conditions: seq<StartCondition>) returns (ok: bool)
      requires Apart()
      ensures ok <==> forall c | c in conditions :: Services.Holds(Value(), c)
    {
      hide Services.Holds, Apart, Value;
      for i := 0 to |conditions|
        invariant forall k | 0 <= k < i :: Services.Holds(Value(), conditions[k])
      {
        if !ConditionLocked(conditions[i]) { return false; }
      }
      ok := true;
    }

    /** The journal loop of a failed start. */
    method JournalFailure(ghost h: Host, user: string, name: string, items: seq<JournalSpec>)
      requires h.journal == journal && h.clock == clock
      modifies `journal
      ensures journal == Services.JournalAll(h, user, name, items).journal
    {
      for i := 0 to |items|
        invariant Services.JournalAll(h.(journal := journal), user, name, items[i..]) == Services.JournalAll(h, user, name, items)
      {
        assert items[i..][0] == items[i] && items[i..][1..] == items[i + 1..];
        AppendJournal(user, name, items[i].priority, items[i].message);
      }
      assert items[|items|..] == [];
    }

    method StartService(name: string, user: string) returns (r: Outcome)
      requires Valid()
      modifies `processes, `journal, services, openPorts
      ensures r == Services.StartService(old(Value()), name, user).1
      ensures UnitFields(Services.StartService(old(Value()), name, user).0)
    {
      hide Canonical, OwnZones, ZonesOf, Services.StartService, Services.RefuseStart, Services.Holds, Services.Table, Services.JournalAll, Services.WebAllowed, Opened;
      ghost var h := Value();
      Starting(h, name, user);
      if user != "root" { return Failed(NotRoot); }
      if name !in services.m { return Failed(NoSuchUnit); }
      var service := services.m[name];
      var ok := ConditionsHold(service.startConditions);
      if !ok {
        FailStart(h, name, user);
        return Failed(StartConditionFailed);
      }
      AcceptStart(name, user);
      r := Done;
    }

    method AcceptStart(name: string, user: string)
      requires name in services.m && OwnZones(zones.m, inner) && openPorts !in inner && services !in inner && this !in inner
      modifies `processes, `journal, services, openPorts
      ensures services.m == old(services.m)[name := old(services.m[name]).(state := Services.RUNNING)]
      ensures processes == Services.Table(Services.RunningNames(services.m))
      ensures openPorts.m == Opened(old(openPorts.m), Services.IsWeb(name) && Services.WebAllowed(old(ZonesOf(zones.m, inner))), addresses)
      ensures journal == old(journal) + [JournalEntry(clock, "info", name, "Started " + name, user)]
    {
      hide OwnZones, ZonesOf, Services.Table, Services.WebAllowed, Opened;
      services.m := services.m[name := services.m[name].(state := Services.RUNNING)];
      RebuildProcesses();
      RefreshServiceEffects(name);
      AppendJournal(user, name, "info", "Started " + name);
    }

    method FailStart(ghost h: Host, name: string, user: string)
      requires name in services.m && h.services == services.m && h.journal == journal && h.clock == clock
      modifies `journal, services
      ensures services.m == Services.RefuseStart(h, name, user).services
      ensures journal == Services.RefuseStart(h, name, user).journal
    {
      hide Services.JournalAll;
      var service := services.m[name];
      services.m := services.m[name := service.(state := "failed")];
      JournalFailure(Services.WithState(h, name, "failed"), user, name, service.onFailure);
    }

    method StopService(name: string, user: string) returns (r: Outcome)
      requires Valid()
      modifies `processes, `journal, services, openPorts
      ensures r == Services.StopService(old(Value()), name, user).1
      ensures UnitFields(Services.StopService(old(Value()), name, user).0)
    {
      hide Canonical, OwnZones, ZonesValue, Services.StopService, Services.Table, Services.EndsWithWebPort, Services.IsWeb;
      ghost var h := Value();
      Stopping(h, name, user);
      if user != "root" { return Failed(NotRoot); }
      if name !in services.m { return Failed(NoSuchUnit); }
      var service := services.m[name];
      services.m := services.m[name := service.(state := "stopped")];
      RebuildProcesses();
      ClearServiceEffects(name);
      AppendJournal(user, name, "info", "Stopped " + name);
      r := Done;
    }

    method EnableService(name: string, user: string, enabled: bool) returns (r: Outcome)
      requires Valid()
      modifies services
      ensures r == Services.EnableService(old(Value()), name, user, enabled).1
      ensures services.m == Services.EnableService(old(Value()), name, user, enabled).0.services
    {
      hide Canonical, OwnZones, ZonesValue;
      if user != "root" { return Failed(NotRoot); }
      if name !in services.m { return Failed(NoSuchUnit); }
      services.m := services.m[name := services.m[name].(enabled := enabled)];
      r := Done;
    }

    /** The loop of SignalProcess over the units: the one the row names is stopped. */
    method TerminateUnit(process: Process, signal: string, user: string)
      requires Valid()
      modifies `journal, services, openPorts
      ensures Becomes(AfterSignal(old(Value()), process, signal, user))
    {
      hide Canonical, OwnZones, ZonesValue, Services.EndsWithWebPort, Services.IsWeb;
      ghost var h := Value();
      ghost var unit := Services.UnitOf(h, process);
      var todo := services.m.Keys;
      CommandOf(h, process);
      while todo != {}
        invariant Valid() && initial == old(initial)
        invariant initial != null ==> Snapshot() == old(Snapshot())
        invariant todo <= h.services.Keys
        invariant Value() == if unit.Just? && unit.value !in todo then AfterSignal(h, process, signal, user) else h
        decreases todo
      {
        var name :| name in todo;
        if process.command == Services.UNIT_PREFIX + name {
          Stopped(name, signal, user);
        }
        todo := todo - {name};
      }
    }

    method Stopped(name: string, signal: string, user: string)
      requires Valid() && name in services.m
      modifies `journal, services, openPorts
      ensures Becomes(Services.Terminate(old(Value()), name, signal, user))
    {
      hide Canonical, OwnZones, ZonesValue, Services.EndsWithWebPort, Services.IsWeb;
      services.m := services.m[name := services.m[name].(state := "stopped")];
      ClearServiceEffects(name);
      AppendJournal(user, name, "warning", "Stopped " + name + " after signal " + signal);
      UnitsWritten();
    }

    /** The loop of SignalProcess over the rows that were in the table at the start. */
    method SignalRows(rows: seq<Process>, pid: int, signal: string, user: string) returns (ok: bool)
      requires Valid()
      modifies `journal, services, openPorts
      ensures Valid() && initial == old(initial) && (initial != null ==> Snapshot() == old(Snapshot()))
      ensures Services.SignalRows(old(Value()), rows, pid, signal, user)
           == if ok then (Services.Rebuild(Value()), Done) else (Value(), Failed(PermissionDenied))
    {
      hide Canonical, OwnZones, ZonesOf, Services.Rebuild, Services.SignalRows, AfterSignal;
      ghost var h := Value();
      for i := 0 to |rows|
        invariant Valid() && initial == old(initial)
        invariant initial != null ==> Snapshot() == old(Snapshot())
        invariant Services.SignalRows(Value(), rows[i..], pid, signal, user) == Services.SignalRows(h, rows, pid, signal, user)
      {
        var process := rows[i];
        assert rows[i..] == [process] + rows[i + 1..];
        SignalRound(Value(), process, rows[i + 1..], pid, signal, user);
        if process.pid != pid { continue; }
        if user != "root" && user != process.user { return false; }
        TerminateUnit(process, signal, user);
      }
      NoMoreRows(Value(), rows[|rows|..], pid, signal, user);
      ok := true;
    }

    method SignalProcess(pid: int, signal: string, user: string) returns (r: Outcome)
      requires Valid()
      modifies `processes, `journal, services, openPorts
      ensures r == Services.SignalProcess(old(Value()), pid, signal, user).1
      ensures Becomes(Services.SignalProcess(old(Value()), pid, signal, user).0)
    {
      hide Canonical, OwnZones, ZonesOf, Services.RunningNames, Services.Table, Services.SignalRows;
      if pid <= 1 { return Failed(ProtectedProcess); }
      var ok := SignalRows(processes, pid, signal, user);
      if !ok { return Failed(PermissionDenied); }
      label Told:
      RebuildProcesses();
      UnitsWritten@Told();
      r := Done;
    }

    /** Any one unit operation: the machine becomes what the operation says, and
        its snapshot stays what it was. */
    method ServiceOperation(op: Services.ServiceOp, user: string) returns (r: Outcome)
      requires Valid() && !op.ResetAll?
      modifies `processes, `journal, services, openPorts
      ensures Becomes(Services.StepService(old(Value()), old(Value()), op, user))
      ensures r == UnitOutcome(old(Value()), op, user)
    {
      hide Canonical, OwnZones, ZonesValue, Services.StartService, Services.StopService, Services.EnableService, Services.SignalProcess;
      ghost var h := Value();
      match op {
        case Start(name) => r := StartService(name, user);
        case Stop(name) => r := StopService(name, user);
        case Enable(name, enabled) =>
          r := EnableService(name, user, enabled);
          Enabling(h, name, user, enabled);
        case Signal(pid, signal) => r := SignalProcess(pid, signal, user);
      }
      M.UnitsKeepRest(h, h, op, user);
      if !op.Signal? { UnitsWritten(); }
    }

    // ---- firewall, published ports and pages, environment, clock, users ----

    /** Clock, directory, environment, ports and pages may have been written. */
    twostate lemma ViewsWritten()
      requires old(Valid()) && SameMaps() && initial == old(initial) && Canonical(cwd)
      requires unchanged(`hostname, `processes, `journal, `addresses, `selinux, `currentUser)
      requires unchanged(own - {this, env, http, openPorts})
      requires initial != null ==> unchanged(initial) && unchanged(initial.own)
      ensures Becomes(old(Value()).(clock := clock, cwd := cwd, env := env.m, http := http.m, openPorts := openPorts.m))
    {
      ZonesKept();
      SnapshotKept();
    }

    /** AllowFirewall writes into the zone's own map object. */
    method AllowFirewall(zone: string, service: string, user: string) returns (r: Outcome)
      requires Valid()
      modifies inner
      ensures r == M.AllowFirewall(old(Value()), zone, service, user).1
      ensures Becomes(M.AllowFirewall(old(Value()), zone, service, user).0)
    {
      hide Canonical, OwnZones, ZonesOf;
      if user != "root" { return Failed(NotRoot); }
      ZonesAt(zones.m, inner);
      if zone !in zones.m { return Failed(NoSuchZone); }
      AllowIn(zones.m, inner, zone, service);
      SnapshotKept();
      r := Done;
    }

    /** SetHTTP and SetPort. */
    method PublishEffect(effect: Rules.Effect)
      requires Valid()
      modifies http, openPorts
      ensures Becomes(Rules.ApplyEffect(old(Value()), effect))
    {
      hide Canonical, OwnZones, ZonesOf;
      hide Rules.PortWrite, Rules.HttpWrite;
      WriteEffect(effect);
      ViewsWritten();
    }

    method WriteEffect(effect: Rules.Effect)
      modifies http, openPorts
      ensures openPorts.m == old(openPorts.m) + Rules.PortWrite(effect)
      ensures http.m == old(http.m) + Rules.HttpWrite(effect)
    {
      hide Rules.Itoa;
      match effect {
        case SetPort(address, port, protocol, state) =>
          openPorts.m := openPorts.m[address + ":" + Rules.Itoa(port) + "/" + protocol := state == "open"];
          if protocol == "tcp" { openPorts.m := openPorts.m[address + ":" + Rules.Itoa(port) := state == "open"]; }
        case SetHttp(url, status, body) => http.m := http.m[url := HTTPResponse(status, body)];
        case UnknownEffect =>
      }
    }

    method SetCwd(dir: string) returns (r: Outcome)
      requires Valid()
      modifies `cwd
      ensures r == M.SetCwd(old(Value()), dir).1
      ensures Becomes(M.SetCwd(old(Value()), dir).0)
    {
      hide Canonical, OwnZones, ZonesOf, NormalizePath;
      Named(Value(), dir);
      var n := NormalizePath(dir, cwd);
      if !n.Ok? { return Failed(PathEmpty); }
      if n.path !in files.m || !files.m[n.path].directory { return Failed(NotFound); }
      cwd := n.path;
      ViewsWritten();
      r := Done;
    }

    method Export(name: string, value: string)
      requires Valid()
      modifies env
      ensures Becomes(old(Value()).(env := old(Value()).env[name := value]))
    {
      hide Canonical, OwnZones, ZonesOf;
      env.m := env.m[name := value];
      ViewsWritten();
    }

    method Unset(name: string)
      requires Valid()
      modifies env
      ensures Becomes(old(Value()).(env := old(Value()).env - {name}))
    {
      hide Canonical, OwnZones, ZonesOf;
      env.m := env.m - {name};
      ViewsWritten();
    }

    method Advance(delta: int)
      requires Valid()
      modifies `clock
      ensures Becomes(old(Value()).(clock := old(Value()).clock + delta))
    {
      hide Canonical, OwnZones, ZonesOf;
      clock := clock + delta;
      ViewsWritten();
    }

    /** The loop of AddUser over the users. */
    method NextUid() returns (uid: int)
      ensures uid == M.NextUid(users.m)
    {
      uid := M.FIRST_UID;
      var todo := users.m.Keys;
      while todo != {}
        invariant todo <= users.m.Keys && uid >= M.FIRST_UID
        invariant forall n | n in users.m && n !in todo :: users.m[n].uid < uid
        invariant uid == M.FIRST_UID || exists n | n in users.m :: users.m[n].uid == uid - 1
        decreases todo
      {
        var n :| n in todo;
        if users.m[n].uid >= uid { uid := users.m[n].uid + 1; }
        todo := todo - {n};
      }
      M.NextUidUnique(users.m, uid, M.NextUid(users.m));
    }

    /** syncIdentityFilesLocked. */
    method SyncIdentityFiles(R: M.Identity)
      modifies files
      ensures files.m == M.SyncIdentity(R, old(files.m), users.m)
    {
      if M.PASSWD in files.m {
        var file := files.m[M.PASSWD];
        file := file.(content := R.passwd(users.m));
        files.m := files.m[file.path := file];
      }
      if M.GROUP in files.m {
        var file := files.m[M.GROUP];
        file := file.(content := R.group(users.m));
        files.m := files.m[file.path := file];
      }
    }

    method AddHome(name: string)
      modifies files
      ensures files.m == M.HomeFiles(old(files.m), name)
    {
      hide M.Home;
      var home := M.Home(name);
      files.m := files.m[home := File(home, "", name, name, 0x1e8, "user_home_dir_t", true)];
      files.m := files.m[home + "/.bash_profile" := File(home + "/.bash_profile", M.PROFILE_TEXT, name, name, 0x1a4, "user_home_t", false)];
      files.m := files.m[home + "/.bashrc" := File(home + "/.bashrc", M.RC_TEXT, name, name, 0x1a4, "user_home_t", false)];
    }

    method AddUser(R: M.Identity, name: string, actor: string) returns (r: Outcome)
      requires Valid()
      modifies users, files
      ensures r == M.AddUser(R, old(Value()), name, actor).1
      ensures Becomes(M.AddUser(R, old(Value()), name, actor).0)
    {
      hide Canonical, OwnZones, ZonesOf, M.HomeFiles, M.SyncIdentity;
      if actor != "root" { return Failed(NotRoot); }
      if name == "" { return Failed(EmptyName); }
      if name in users.m { return Failed(UserExists); }
      var uid := NextUid();
      users.m := users.m[name := User(name, uid, uid, [name], "/bin/bash")];
      AddHome(name);
      SyncIdentityFiles(R);
      ZonesKept();
      SnapshotKept();
      r := Done;
    }

    // ---- whole runs ----

    ghost function View(): M.Machine
      requires Valid() && initial != null
      reads this, zones, own, initial, if initial == null then {} else {initial.zones}, if initial == null then {} else initial.own
    {
      M.Machine(Value(), Snapshot())
    }

    /** The operations that cannot fail, and cd. */
    method PerformPlain(R: M.Identity, op: M.Op) returns (r: Outcome)
      requires Valid() && (op.Publish? || op.ChangeDir? || op.Export? || op.Unset? || op.Tick?)
      modifies `cwd, `clock, env, http, openPorts
      ensures r == M.Perform(R, old(Value()), op).1
      ensures Becomes(M.Perform(R, old(Value()), op).0)
    {
      hide Canonical, Apart, M.SetCwd, Rules.ApplyEffect;
      r := Done;
      match op {
        case Publish(effect) => PublishEffect(effect);
        case ChangeDir(dir) => r := SetCwd(dir);
        case Export(name, value) => Export(name, value);
        case Unset(name) => Unset(name);
        case Tick(delta) => Advance(delta);
      }
    }

    /** One operation other than reset. */
    method Perform(R: M.Identity, op: M.Op) returns (r: Outcome)
      requires Valid() && !M.IsReset(op)
      modifies own
      ensures own == old(own)
      ensures r == M.Perform(R, old(Value()), op).1
      ensures Becomes(M.Perform(R, old(Value()), op).0)
    {
      hide Canonical, OwnZones, ZonesOf, FileTheorems.Apply, M.AllowFirewall, M.SetCwd, M.AddUser, Rules.ApplyEffect;
      hide Services.StartService, Services.StopService, Services.EnableService, Services.SignalProcess;
      match op {
        case Files(file, user) => r := FileOperation(file, user);
        case Units(unit, user) => r := ServiceOperation(unit, user);
        case Allow(zone, service, user) => r := AllowFirewall(zone, service, user);
        case NewUser(name, actor) => r := AddUser(R, name, actor);
        case _ => r := PerformPlain(R, op);
      }
    }

    /** Any operation, as a step of the machine: the snapshot is never written, and
        reset replaces it by an equal one. */
    method Step(R: M.Identity, op: M.Op)
      requires Valid() && initial != null
      modifies own
      ensures Valid() && initial != null && View() == M.Step(R, old(View()), op)
      ensures fresh(own - old(own)) && (initial == old(initial) || fresh(initial.own))
    {
      hide Canonical, M.Perform, OwnZones, ZonesOf;
      if M.IsReset(op) {
        var _ := Reset();
      } else {
        var _ := Perform(R, op);
      }
    }

    /** Every run of operations on the objects is the run on values. */
    method Run(R: M.Identity, ops: seq<M.Op>)
      requires Valid() && initial != null
      modifies own
      ensures Valid() && initial != null && View() == M.Run(R, old(View()), ops)
      ensures Snapshot() == old(Snapshot())
      ensures fresh(own - old(own)) && (initial == old(initial) || fresh(initial.own))
    {
      hide Canonical, M.Step, OwnZones, ZonesOf;
      ghost var start := View();
      for i := 0 to |ops|
        invariant Valid() && initial != null && Snapshot() == start.initial
        invariant fresh(own - old(own)) && (initial == old(initial) || fresh(initial.own))
        invariant M.Run(R, View(), ops[i..]) == M.Run(R, start, ops)
      {
        M.CwdStaysCanonical(R, View(), ops[i]);
        M.RunNext(R, View(), ops, i);
        Step(R, ops[i]);
      }
      M.RunNone(R, View(), ops[|ops|..]);
    }

    /** Run and reset, over and over: each round ends where the first one started. */
    method Rounds(R: M.Identity, rounds: seq<seq<M.Op>>)
      requires Valid() && initial != null
      modifies own
      ensures Valid() && initial != null && Snapshot() == old(Snapshot())
      ensures rounds != [] ==> Value() == old(Snapshot())
    {
      hide Canonical, M.Run, OwnZones, ZonesOf;
      ghost var start := Snapshot();
      for i := 0 to |rounds|
        invariant Valid() && initial != null && Snapshot() == start
        invariant fresh(own - old(own)) && (initial == old(initial) || fresh(initial.own))
        invariant i > 0 ==> Value() == start
      {
        Run(R, rounds[i]);
        var _ := Reset();
      }
    }

    method TakeSnapshot(ghost h: Host)
      requires Apart() && Value() == h && Canonical(h.cwd)
      modifies `initial
      ensures initial != null && fresh(initial.own) && Valid() && View() == M.Machine(h, h)
    {
      hide OwnZones, ZonesOf, Canonical;
      initial := CloneUnlocked();
    }
  }

  /** NewState, from the plain data that the scenario's loops produce. */
  method NewState(h: Host) returns (s: State)
    requires Canonical(h.cwd)
    ensures fresh(s) && fresh(s.own) && s.Valid() && s.initial != null && fresh(s.initial.own)
    ensures s.View() == M.Machine(h, h)
  {
    s := Filled(h);
    s.TakeSnapshot(h);
  }

  method Filled(h: Host) returns (s: State)
    ensures fresh(s) && fresh(s.own) && s.Apart() && s.Value() == h && s.initial == null
  {
    var f, u, v, d := MakeTables(h);
    var z, maps := MakeZones(h.zones);
    var o, w, p, e := MakeViews(h);
    s := new State.Literal(h.hostname, h.clock, h.processes, h.journal, h.addresses, h.selinux, h.currentUser, h.cwd,
                           f, u, v, d, z, o, w, p, e, maps);
  }

  // ---- what the operations on values come to, in terms of the tables they read ----

  lemma Named(h: Host, name: string)
    requires Canonical(h.cwd)
    ensures Normalized(h, name) == NormalizePath(name, h.cwd)
    ensures var n := NormalizePath(name, h.cwd); !n.Escapes? && (n.Ok? ==> Canonical(n.path))
  {
    hide NormalizePath, Canonical;
  }

  function UnitOutcome(h: Host, op: Services.ServiceOp, user: string): Outcome
    requires !op.ResetAll?
  {
    match op
    case Start(name) => Services.StartService(h, name, user).1
    case Stop(name) => Services.StopService(h, name, user).1
    case Enable(name, enabled) => Services.EnableService(h, name, user, enabled).1
    case Signal(pid, signal) => Services.SignalProcess(h, pid, signal, user).1
  }

  lemma Enabling(h: Host, name: string, user: string, enabled: bool)
    ensures var after := Services.EnableService(h, name, user, enabled).0; after == h.(services := after.services)
  {}

  function Withdrawn(ports: map<string, bool>, name: string): map<string, bool> {
    if Services.IsWeb(name) then map k | k in ports && !Services.EndsWithWebPort(k) :: ports[k] else ports
  }

  lemma Starting(h: Host, name: string, user: string)
    ensures var (after, r) := Services.StartService(h, name, user);
            if user != "root" then after == h && r == Failed(NotRoot)
            else if name !in h.services then after == h && r == Failed(NoSuchUnit)
            else if forall c | c in h.services[name].startConditions :: Services.Holds(h, c) then
              r == Done &&
              var services := h.services[name := h.services[name].(state := Services.RUNNING)];
              var rebuilt := h.(services := services, processes := Services.Table(Services.RunningNames(services)));
              after == rebuilt.(openPorts := Opened(h.openPorts, Services.IsWeb(name) && Services.WebAllowed(h.zones), h.addresses),
                                journal := h.journal + [JournalEntry(h.clock, "info", name, "Started " + name, user)])
            else
              r == Failed(StartConditionFailed) &&
              var refused := Services.RefuseStart(h, name, user);
              after == h.(services := refused.services, journal := refused.journal)
  {
    hide Services.Holds, Services.Table, Services.JournalAll, Services.WebAllowed, Services.WebPorts;
  }

  lemma Stopping(h: Host, name: string, user: string)
    ensures var (after, r) := Services.StopService(h, name, user);
            if user != "root" then after == h && r == Failed(NotRoot)
            else if name !in h.services then after == h && r == Failed(NoSuchUnit)
            else
              r == Done &&
              var services := h.services[name := h.services[name].(state := "stopped")];
              after == h.(services := services, processes := Services.Table(Services.RunningNames(services)),
                          openPorts := Withdrawn(h.openPorts, name),
                          journal := h.journal + [JournalEntry(h.clock, "info", name, "Stopped " + name, user)])
  {
    hide Services.Table, Services.EndsWithWebPort;
  }

  lemma SignalRound(h: Host, p: Process, rest: seq<Process>, pid: int, signal: string, user: string)
    ensures Services.SignalRows(h, [p] + rest, pid, signal, user) ==
            if p.pid != pid then Services.SignalRows(h, rest, pid, signal, user)
            else if user != "root" && user != p.user then (h, Failed(PermissionDenied))
            else Services.SignalRows(AfterSignal(h, p, signal, user), rest, pid, signal, user)
  {
    assert ([p] + rest)[1..] == rest;
  }

  lemma NoMoreRows(h: Host, rows: seq<Process>, pid: int, signal: string, user: string)
    requires rows == []
    ensures Services.SignalRows(h, rows, pid, signal, user) == (Services.Rebuild(h), Done)
  {}

  function AfterSignal(h: Host, process: Process, signal: string, user: string): Host {
    match Services.UnitOf(h, process)
    case Nothing => h
    case Just(name) => Services.Terminate(h, name, signal, user)
  }

  /** The unit a row belongs to is the only one whose command it shows. */
  lemma CommandOf(h: Host, process: Process)
    ensures forall name | name in h.services ::
              process.command == Services.UNIT_PREFIX + name <==> Services.UnitOf(h, process) == Just(name)
  {
    forall name | name in h.services
      ensures process.command == Services.UNIT_PREFIX + name <==> Services.UnitOf(h, process) == Just(name)
    {
      assert (Services.UNIT_PREFIX + name)[|Services.UNIT_PREFIX|..] == name;
    }
  }

  lemma RowsNext(names: seq<string>, i: nat)
    requires i < |names|
    ensures Services.Rows(names[..i + 1]) == Services.Rows(names[..i]) + [Services.Row(i, names[i])]
  {}

  ghost predicate Allows(z: Zone) { "http" in z.services && z.services["http"] }

  /** The port table once some, or no, zone has let the web ports open. */
  ghost function Opened(ports: map<string, bool>, open: bool, addresses: seq<string>): map<string, bool> {
    if open then ports + Services.WebPorts(addresses) else ports
  }

  lemma MoreAllowed(allowed: set<string>, todo: set<string>, zone: string)
    requires zone in todo
    ensures allowed - (todo - {zone}) != {} <==> allowed - todo != {} || zone in allowed
  {
    assert allowed - (todo - {zone}) == allowed - todo + (allowed * {zone});
  }

  lemma NotOpened(ports: map<string, bool>, addresses: seq<string>)
    ensures Opened(ports, false, addresses) == ports
  {}

  lemma OpenedAgain(ports: map<string, bool>, once: bool, again: bool, addresses: seq<string>)
    ensures Opened(Opened(ports, once, addresses), again, addresses) == Opened(ports, once || again, addresses)
  {
    hide Services.WebPorts;
  }

  lemma WebAllows(zones: map<string, Zone>)
    ensures Services.WebAllowed(zones) <==> (set z | z in zones && Allows(zones[z])) != {}
  {
    var allowed := set z | z in zones && Allows(zones[z]);
    if allowed != {} {
      var z :| z in allowed;
      assert "http" in zones[z].services && zones[z].services["http"];
    } else {
      forall z | z in zones ensures !Allows(zones[z]) { assert z !in allowed; }
      assert !Services.WebAllowed(zones);
    }
  }

  lemma NoWebPorts()
    ensures Services.WebPorts([]) == map[]
  {}

  lemma WebPortsNext(addresses: seq<string>, i: nat)
    requires i < |addresses|
    ensures Services.WebPorts(addresses[..i + 1]) == Services.WebPorts(addresses[..i])[Split(addresses[i])[0] + ":80" := true]
  {
    hide Split;
    assert addresses[..i + 1] == addresses[..i] + [addresses[i]];
  }

  lemma RawNext(parts: seq<string>, i: nat)
    requires i < |parts|
    ensures Raw(parts[..i + 1]) == Raw(parts[..i]) + "/" + parts[i] == Render(parts[..i + 1])
  {
    assert parts[..i + 1][..i] == parts[..i];
  }

  lemma Touched(h: Host, name: string, user: string)
    requires Canonical(h.cwd)
    ensures var n := NormalizePath(name, h.cwd);
            FileTree.Touch(h, name, user) ==
            if !n.Ok? then (h, Failed(PathEmpty))
            else if n.path in h.files then (h, Done)
            else if Canonical(n.path) then FileTree.Create(h, n.path, NewRegular(h, n.path, user), user)
            else (h, Done)
  {
    hide NormalizePath, Canonical, FileTree.Create;
    Named(h, name);
  }

  lemma WrittenOver(h: Host, name: string, content: string, user: string, append: bool)
    requires Canonical(h.cwd)
    ensures var n := NormalizePath(name, h.cwd);
            var (after, r) := FileTree.WriteFile(h, name, content, user, append);
            && (!n.Ok? ==> after.files == h.files && r == Failed(PathEmpty))
            && (n.Ok? && n.path in h.files ==>
                  var f := h.files[n.path];
                  if !WritableIn(h.users, f, user) then after.files == h.files && r == Failed(PermissionDenied)
                  else after.files == h.files[n.path := f.(content := if append then f.content + content else content)] && r == Done)
  {
    hide NormalizePath, Canonical, FileTree.Create, WritableIn;
    Named(h, name);
  }

  lemma Created(h: Host, p: string, f: File, user: string)
    requires Canonical(p)
    ensures var grown := FileTree.EnsureParents(h.files, p);
            var (after, r) := FileTree.Create(h, p, f, user);
            if !WritableIn(h.users, Lookup(grown, Dir(p)), user) then after.files == grown && r == Failed(PermissionDenied)
            else after.files == grown[p := f] && r == Done
  {
    hide Canonical, Dir, FileTree.EnsureParents, WritableIn;
  }

  lemma WrittenNew(h: Host, name: string, content: string, user: string, append: bool)
    requires Canonical(h.cwd)
    ensures var n := NormalizePath(name, h.cwd);
            n.Ok? && n.path !in h.files ==>
              Canonical(n.path) &&
              FileTree.WriteFile(h, name, content, user, append)
              == FileTree.Create(h, n.path, File(n.path, content, user, PrimaryGroupIn(h.users, user), 0x1a4, "", false), user)
  {
    hide NormalizePath, Canonical, FileTree.Create, PrimaryGroupIn;
    Named(h, name);
  }
}
