/** internal/report/diff.go: the list of changes between two hosts, and what it
    determines. */
module StateDiff {
  import opened Text
  import opened Host
  import opened Options

  /** One item of a change list: what there was and what there is now. */
  datatype Change<S> = Change(name: string, before: Option<S>, after: Option<S>, contentChanged: bool)

  /** How two entries are compared, what is shown of one, and whether contents differ. */
  datatype Comparison<!V(!new), !S> = Comparison(same: (V, V) -> bool, summary: V -> S, content: (V, V) -> bool) {
    /** Entries that count as equal look equal. */
    ghost predicate Sound() { forall v, w :: same(v, w) ==> summary(v) == summary(w) }
  }

  // ---- one inventory ----

  function Find<V>(m: map<string, V>, n: string): Option<V> { if n in m then Just(m[n]) else Nothing }

  predicate Unchanged<V(!new), S>(C: Comparison<V, S>, b: map<string, V>, a: map<string, V>, n: string) {
    n in b && n in a && C.same(b[n], a[n])
  }

  function Summary<V(!new), S>(C: Comparison<V, S>, m: map<string, V>, n: string): Option<S> {
    if n in m then Just(C.summary(m[n])) else Nothing
  }

  function ChangeOf<V(!new), S>(C: Comparison<V, S>, b: map<string, V>, a: map<string, V>, n: string): Change<S> {
    Change(n, Summary(C, b, n), Summary(C, a, n), n in b && n in a && C.content(b[n], a[n]))
  }

  function Changes<V(!new), S>(C: Comparison<V, S>, b: map<string, V>, a: map<string, V>, names: seq<string>): seq<Change<S>> {
    if names == [] then []
    else (if Unchanged(C, b, a, names[0]) then [] else [ChangeOf(C, b, a, names[0])]) + Changes(C, b, a, names[1..])
  }

  function Compared<V(!new), S>(C: Comparison<V, S>, b: map<string, V>, a: map<string, V>): seq<Change<S>> {
    Changes(C, b, a, Sorted(b.Keys + a.Keys))
  }

  method KeysOf<V>(m: map<string, V>) returns (keys: seq<string>)
    ensures forall k :: k in keys <==> k in m
  {
    keys := [];
    var todo := m.Keys;
    while todo != {}
      invariant todo <= m.Keys && forall k :: k in keys <==> k in m && k !in todo
      decreases todo
    {
      var k :| k in todo;
      keys := keys + [k];
      todo := todo - {k};
    }
  }

  method SortedUnion(left: seq<string>, right: seq<string>) returns (out: seq<string>)
    ensures StrictlySorted(out) && forall x :: x in out <==> x in left || x in right
  {
    var seen: set<string> := {};
    var all := left + right;
    for i := 0 to |all|
      invariant forall x :: x in seen <==> x in all[..i]
    {
      seen := seen + {all[i]};
    }
    assert all[..|all|] == all;
    out := Sorted(seen);
  }

  method CompareMaps<V(!new), S>(C: Comparison<V, S>, b: map<string, V>, a: map<string, V>) returns (changes: seq<Change<S>>)
    ensures changes == Compared(C, b, a)
  {
    hide Changes;
    var left := KeysOf(b);
    var right := KeysOf(a);
    var names := SortedUnion(left, right);
    SortedUnique(names, Sorted(b.Keys + a.Keys));
    changes := CompareNames(C, b, a, names);
  }

  /** The loop of Diff over one kind of entry. */
  method CompareNames<V(!new), S>(C: Comparison<V, S>, b: map<string, V>, a: map<string, V>, names: seq<string>)
    returns (changes: seq<Change<S>>)
    ensures changes == Changes(C, b, a, names)
  {
    hide Changes;
    changes := [];
    for i := 0 to |names|
      invariant changes + Changes(C, b, a, names[i..]) == Changes(C, b, a, names)
    {
      var name := names[i];
      ChangesNext(C, b, a, names, i);
      Regroup(changes, ChangesAt(C, b, a, name), Changes(C, b, a, names[i + 1..]));
      if name in b && name in a && C.same(b[name], a[name]) {
        assert changes + [] == changes;
        continue;
      }
      var before := if name in b then Just(C.summary(b[name])) else Nothing;
      var after := if name in a then Just(C.summary(a[name])) else Nothing;
      changes := changes + [Change(name, before, after, name in b && name in a && C.content(b[name], a[name]))];
    }
    NoChanges(C, b, a, names[|names|..]);
    assert changes + [] == changes;
  }

  function ChangesAt<V(!new), S>(C: Comparison<V, S>, b: map<string, V>, a: map<string, V>, n: string): seq<Change<S>>
  {
    if Unchanged(C, b, a, n) then [] else [ChangeOf(C, b, a, n)]
  }

  lemma ChangesNext<V(!new), S>(C: Comparison<V, S>, b: map<string, V>, a: map<string, V>, names: seq<string>, i: nat)
    requires i < |names|
    ensures Changes(C, b, a, names[i..]) == ChangesAt(C, b, a, names[i]) + Changes(C, b, a, names[i + 1..])
  {
    assert names[i..][0] == names[i] && names[i..][1..] == names[i + 1..];
  }

  lemma NoChanges<V(!new), S>(C: Comparison<V, S>, b: map<string, V>, a: map<string, V>, names: seq<string>)
    requires names == []
    ensures Changes(C, b, a, names) == []
  {}

  lemma Regroup<T>(a: seq<T>, b: seq<T>, c: seq<T>)
    ensures a + (b + c) == a + b + c
  {}

  // ---- the changes determine what there is now ----

  function Applied<S>(base: map<string, S>, c: Change<S>): map<string, S> {
    if c.after.Just? then base[c.name := c.after.value] else base - {c.name}
  }

  function ApplyAll<S>(base: map<string, S>, changes: seq<Change<S>>): map<string, S>
    decreases |changes|
  {
    if changes == [] then base else ApplyAll(Applied(base, changes[0]), changes[1..])
  }

  function Summaries<V(!new), S>(C: Comparison<V, S>, m: map<string, V>): map<string, S> { map n | n in m :: C.summary(m[n]) }

  /** Changes to other names do not matter, and a listed name ends as it is now. */
  lemma {:induction false} AppliedAt<V(!new), S>(C: Comparison<V, S>, b: map<string, V>, a: map<string, V>,
                                               names: seq<string>, base: map<string, S>, k: string)
    requires C.Sound() && StrictlySorted(names)
    requires k in names ==> Find(base, k) == Summary(C, b, k)
    ensures Find(ApplyAll(base, Changes(C, b, a, names)), k) == if k in names then Summary(C, a, k) else Find(base, k)
    decreases |names|
  {
    hide Comparison.Sound;
    if names != [] {
      var n, rest := names[0], Changes(C, b, a, names[1..]);
      FirstOnce(names);
      if Unchanged(C, b, a, n) {
        SoundAt(C, b[n], a[n]);
        assert [] + rest == rest;
        AppliedAt(C, b, a, names[1..], base, k);
      } else {
        var c := ChangeOf(C, b, a, n);
        assert ([c] + rest)[0] == c && ([c] + rest)[1..] == rest;
        AppliedAt(C, b, a, names[1..], Applied(base, c), k);
      }
      assert k in names <==> k == n || k in names[1..];
    }
  }

  lemma SoundAt<V(!new), S>(C: Comparison<V, S>, v: V, w: V)
    requires C.Sound() && C.same(v, w)
    ensures C.summary(v) == C.summary(w)
  {}

  lemma FirstOnce(names: seq<string>)
    requires StrictlySorted(names) && names != []
    ensures names[0] !in names[1..] && StrictlySorted(names[1..])
  {
    LessIrreflexive(names[0]);
  }

  /** The change list turns the old summaries into exactly the new ones. */
  lemma ChangesDetermine<V(!new), S>(C: Comparison<V, S>, b: map<string, V>, a: map<string, V>)
    requires C.Sound()
    ensures ApplyAll(Summaries(C, b), Compared(C, b, a)) == Summaries(C, a)
  {
    hide Comparison.Sound;
    var names := Sorted(b.Keys + a.Keys);
    var end := ApplyAll(Summaries(C, b), Compared(C, b, a));
    forall k ensures Find(end, k) == Find(Summaries(C, a), k) {
      AppliedAt(C, b, a, names, Summaries(C, b), k);
    }
    SameLookups(end, Summaries(C, a));
  }

  lemma SameLookups<S>(x: map<string, S>, y: map<string, S>)
    requires forall k :: Find(x, k) == Find(y, k)
    ensures x == y
  {
    forall k ensures k in x <==> k in y { assert Find(x, k) == Find(y, k); }
    forall k | k in x ensures x[k] == y[k] { assert Find(x, k) == Find(y, k); }
  }

  // ---- what is listed ----

  lemma {:induction false} ListedNames<V(!new), S>(C: Comparison<V, S>, b: map<string, V>, a: map<string, V>, names: seq<string>)
    requires StrictlySorted(names)
    ensures var cs := Changes(C, b, a, names);
            && (forall i, j | 0 <= i < j < |cs| :: Less(cs[i].name, cs[j].name))
            && (forall c | c in cs :: c.name in names && !Unchanged(C, b, a, c.name) && c == ChangeOf(C, b, a, c.name))
            && (forall n | n in names && !Unchanged(C, b, a, n) :: ChangeOf(C, b, a, n) in cs)
    decreases |names|
  {
    if names != [] {
      var cs, rest := Changes(C, b, a, names), Changes(C, b, a, names[1..]);
      FirstOnce(names);
      ListedNames(C, b, a, names[1..]);
      hide Unchanged, ChangeOf;
      forall c | c in rest ensures Less(names[0], c.name) {
        var k :| 0 <= k < |names[1..]| && names[1..][k] == c.name;
        assert names[k + 1] == c.name;
      }
      assert forall i | 0 <= i < |rest| :: rest[i] in rest;
      assert names == [names[0]] + names[1..];
    }
  }

  /** The list is in strictly increasing order of names, holds one item for each entry
      that differs, and none for an entry that does not. */
  lemma ListedExactly<V(!new), S>(C: Comparison<V, S>, b: map<string, V>, a: map<string, V>)
    ensures var cs := Compared(C, b, a);
            && (forall i, j | 0 <= i < j < |cs| :: Less(cs[i].name, cs[j].name))
            && (forall c | c in cs :: (c.name in b || c.name in a) && !Unchanged(C, b, a, c.name) && c == ChangeOf(C, b, a, c.name))
            && (forall n | (n in b || n in a) && !Unchanged(C, b, a, n) :: ChangeOf(C, b, a, n) in cs)
  {
    var names := Sorted(b.Keys + a.Keys);
    ListedNames(C, b, a, names);
    assert forall n :: n in names <==> n in b.Keys + a.Keys;
  }

  /** No change is listed exactly when both have the same names and equal entries. */
  lemma EmptyExact<V(!new), S>(C: Comparison<V, S>, b: map<string, V>, a: map<string, V>)
    ensures Compared(C, b, a) == [] <==> b.Keys == a.Keys && forall n | n in b :: C.same(b[n], a[n])
  {
    ListedExactly(C, b, a);
    hide Compared;
    var cs := Compared(C, b, a);
    if cs == [] {
      forall n | n in b || n in a ensures Unchanged(C, b, a, n) {
        assert Unchanged(C, b, a, n) || ChangeOf(C, b, a, n) in cs;
      }
    } else {
      assert cs[0] in cs;
      var n := cs[0].name;
      assert n in b.Keys || n in a.Keys;
    }
  }

  // ---- sorted lists of strings ----

  function Insert(x: string, xs: seq<string>): seq<string> {
    if xs == [] then [x] else if Less(xs[0], x) then [xs[0]] + Insert(x, xs[1..]) else [x] + xs
  }

  /** sort.Strings on a list that may repeat strings. */
  function SortList(xs: seq<string>): seq<string> { if xs == [] then [] else Insert(xs[0], SortList(xs[1..])) }

  ghost predicate Ascending(xs: seq<string>) { forall i, j | 0 <= i < j < |xs| :: !Less(xs[j], xs[i]) }

  lemma {:induction false} InsertSorts(x: string, xs: seq<string>)
    requires Ascending(xs)
    ensures Ascending(Insert(x, xs)) && multiset(Insert(x, xs)) == multiset(xs) + multiset{x}
  {
    if xs == [] {
    } else if Less(xs[0], x) {
      assert xs == [xs[0]] + xs[1..];
      InsertSorts(x, xs[1..]);
      var r := Insert(x, xs[1..]);
      forall j | 0 <= j < |r| ensures !Less(r[j], xs[0]) {
        assert r[j] in multiset(r);
        if r[j] == x { NotBoth(xs[0], x); } else { assert r[j] in multiset(xs[1..]); }
      }
    } else {
      forall j | 0 <= j < |xs| ensures !Less(xs[j], x) {
        if j > 0 && Less(xs[j], x) { Between(xs[0], xs[j], x); }
      }
    }
  }

  lemma NotBoth(a: string, b: string)
    requires Less(a, b)
    ensures !Less(b, a)
  {
    if Less(b, a) {
      LessTransitive(a, b, a);
      LessIrreflexive(a);
    }
  }

  /** What is not below `x` has nothing below `x` above it. */
  lemma Between(a: string, b: string, x: string)
    requires !Less(b, a) && Less(b, x)
    ensures Less(a, x)
  {
    LessTotal(a, b);
    if a != b { LessTransitive(a, b, x); }
  }

  lemma {:induction false} SortSorts(xs: seq<string>)
    ensures Ascending(SortList(xs)) && multiset(SortList(xs)) == multiset(xs)
  {
    if xs != [] {
      assert xs == [xs[0]] + xs[1..];
      SortSorts(xs[1..]);
      InsertSorts(xs[0], SortList(xs[1..]));
    }
  }

  lemma FirstIsLeast(xs: seq<string>, x: string)
    requires Ascending(xs) && x in xs
    ensures !Less(x, xs[0])
  {
    var j :| 0 <= j < |xs| && xs[j] == x;
    LessIrreflexive(x);
  }

  lemma TailMultiset(xs: seq<string>)
    requires xs != []
    ensures multiset(xs[1..]) == multiset(xs) - multiset{xs[0]}
  {
    assert xs == [xs[0]] + xs[1..];
  }

  lemma {:induction false} AscendingUnique(xs: seq<string>, ys: seq<string>)
    requires Ascending(xs) && Ascending(ys) && multiset(xs) == multiset(ys)
    ensures xs == ys
    decreases |xs|
  {
    assert |xs| == |multiset(xs)| && |ys| == |multiset(ys)|;
    if xs != [] {
      assert xs[0] in multiset(xs) && ys[0] in multiset(ys);
      FirstIsLeast(xs, ys[0]);
      FirstIsLeast(ys, xs[0]);
      LessTotal(xs[0], ys[0]);
      hide Less;
      TailMultiset(xs);
      TailMultiset(ys);
      AscendingUnique(xs[1..], ys[1..]);
      assert xs == [xs[0]] + xs[1..] && ys == [ys[0]] + ys[1..];
    }
  }

  /** sameStrings: equal up to order, repetitions counted. */
  lemma SameStringsExact(xs: seq<string>, ys: seq<string>)
    ensures SortList(xs) == SortList(ys) <==> multiset(xs) == multiset(ys)
  {
    SortSorts(xs);
    SortSorts(ys);
    if multiset(xs) == multiset(ys) { AscendingUnique(SortList(xs), SortList(ys)); }
  }

  // ---- the five inventories ----

  datatype FileSummary = FileSummary(path: string, owner: string, group: string, mode: bv32, selinuxType: string,
                                     directory: bool, size: nat)
  datatype ServiceSummary = ServiceSummary(name: string, enabled: bool, state: string)
  datatype UserSummary = UserSummary(name: string, uid: int, gid: int, groups: seq<string>, shell: string)

  /** A Go slice: nil is not the empty slice. */
  datatype Slice = Nil | List(values: seq<string>)

  datatype ZoneSummary = ZoneSummary(interfaces: Slice, services: Slice, ports: Slice)

  function Enabled(values: map<string, bool>): set<string> { set k | k in values && values[k] }

  /** mapKeys, which makes its slice, so that it is never nil. */
  method MapKeys(values: map<string, bool>) returns (keys: seq<string>)
    ensures keys == Sorted(Enabled(values))
  {
    var chosen: set<string> := {};
    var todo := values.Keys;
    while todo != {}
      invariant todo <= values.Keys && chosen == set k | k in values && k !in todo && values[k]
      decreases todo
    {
      var k :| k in todo;
      if values[k] { chosen := chosen + {k}; }
      todo := todo - {k};
    }
    assert chosen == Enabled(values);
    keys := Sorted(chosen);
  }

  /** A copy of an empty slice is nil. */
  function CopyOf(xs: seq<string>): Slice { if xs == [] then Nil else List(SortList(xs)) }

  function ZoneValues(z: Option<Zone>): ZoneSummary {
    match z
    case Nothing => ZoneSummary(Nil, Nil, Nil)
    case Just(zone) => ZoneSummary(CopyOf(zone.interfaces), List(Sorted(Enabled(zone.services))), List(Sorted(Enabled(zone.ports))))
  }

  /** The values of a missing zone are those of no zone. */
  lemma MissingZoneShows(z: Option<Zone>)
    ensures ZoneValues(z) == ZoneValues(Nothing) <==> z == Nothing
  {}

  const FILES: Comparison<File, FileSummary> := Comparison(
    (v: File, w: File) => v == w,
    (f: File) => FileSummary(f.path, f.owner, f.group, f.mode, f.selinuxType, f.directory, ByteLen(f.content)),
    (v: File, w: File) => v.content != w.content)

  const SERVICES: Comparison<Service, ServiceSummary> := Comparison(
    (v: Service, w: Service) => v == w,
    (s: Service) => ServiceSummary(s.name, s.enabled, s.state),
    (v: Service, w: Service) => false)

  /** userEqual, and summarizeUser. */
  const USERS: Comparison<User, UserSummary> := Comparison(
    (v: User, w: User) => v.name == w.name && v.uid == w.uid && v.gid == w.gid && v.shell == w.shell && SortList(v.groups) == SortList(w.groups),
    (u: User) => UserSummary(u.name, u.uid, u.gid, SortList(u.groups), u.shell),
    (v: User, w: User) => false)

  const ZONES: Comparison<Zone, ZoneSummary> := Comparison(
    (v: Zone, w: Zone) => ZoneValues(Just(v)) == ZoneValues(Just(w)),
    (z: Zone) => ZoneValues(Just(z)),
    (v: Zone, w: Zone) => false)

  const PACKAGES: Comparison<string, string> := Comparison(
    (v: string, w: string) => v == w, (p: string) => p, (v: string, w: string) => false)

  datatype Diff = Diff(files: seq<Change<FileSummary>>, services: seq<Change<ServiceSummary>>, users: seq<Change<UserSummary>>,
                       firewall: seq<Change<ZoneSummary>>, packages: seq<Change<string>>)

  function DiffOf(b: Host, a: Host): Diff {
    Diff(Compared(FILES, b.files, a.files), Compared(SERVICES, b.services, a.services), Compared(USERS, b.users, a.users),
         Compared(ZONES, b.zones, a.zones), Compared(PACKAGES, b.packages, a.packages))
  }

  method MakeDiff(before: Host, after: Host) returns (diff: Diff)
    ensures diff == DiffOf(before, after)
  {
    hide Compared;
    var files := CompareMaps(FILES, before.files, after.files);
    var services := CompareMaps(SERVICES, before.services, after.services);
    var users := CompareMaps(USERS, before.users, after.users);
    var firewall := CompareMaps(ZONES, before.zones, after.zones);
    var packages := CompareMaps(PACKAGES, before.packages, after.packages);
    diff := Diff(files, services, users, firewall, packages);
  }

  lemma AllSound()
    ensures FILES.Sound() && SERVICES.Sound() && USERS.Sound() && ZONES.Sound() && PACKAGES.Sound()
  {
    hide SortList, ZoneValues, ByteLen;
  }

  /** The difference of two hosts turns the old inventory into the new one, kind by kind. */
  lemma DiffDeterminesInventory(b: Host, a: Host)
    ensures var d := DiffOf(b, a);
            && ApplyAll(Summaries(FILES, b.files), d.files) == Summaries(FILES, a.files)
            && ApplyAll(Summaries(SERVICES, b.services), d.services) == Summaries(SERVICES, a.services)
            && ApplyAll(Summaries(USERS, b.users), d.users) == Summaries(USERS, a.users)
            && ApplyAll(Summaries(ZONES, b.zones), d.firewall) == Summaries(ZONES, a.zones)
            && ApplyAll(Summaries(PACKAGES, b.packages), d.packages) == Summaries(PACKAGES, a.packages)
  {
    AllSound();
    hide Compared, Comparison.Sound, ApplyAll, Summaries;
    ChangesDetermine(FILES, b.files, a.files);
    ChangesDetermine(SERVICES, b.services, a.services);
    ChangesDetermine(USERS, b.users, a.users);
    ChangesDetermine(ZONES, b.zones, a.zones);
    ChangesDetermine(PACKAGES, b.packages, a.packages);
  }

  /** A file that is not listed is the same file with the same content; of a listed one
      the flag tells whether its content changed. */
  lemma UnlistedFilesEqual(b: Host, a: Host)
    ensures var cs := DiffOf(b, a).files;
            && (forall n | (n in b.files || n in a.files) && (forall c | c in cs :: c.name != n) ::
                  n in b.files && n in a.files && b.files[n] == a.files[n])
            && (forall c | c in cs :: c.contentChanged <==>
                  c.name in b.files && c.name in a.files && b.files[c.name].content != a.files[c.name].content)
  {
    ListedExactly(FILES, b.files, a.files);
    hide Compared;
    var cs := DiffOf(b, a).files;
    forall n | (n in b.files || n in a.files) && (forall c | c in cs :: c.name != n)
      ensures Unchanged(FILES, b.files, a.files, n)
    {
      assert Unchanged(FILES, b.files, a.files, n) || ChangeOf(FILES, b.files, a.files, n) in cs;
    }
    forall c | c in cs
      ensures c.contentChanged <==> c.name in b.files && c.name in a.files && b.files[c.name].content != a.files[c.name].content
    {
      assert c == ChangeOf(FILES, b.files, a.files, c.name);
    }
  }

  /** Zones are compared by the lists shown for them, and a missing zone shows none: a zone
      is listed exactly when those lists differ. */
  lemma ListedZonesExact(b: Host, a: Host, n: string)
    requires n in b.zones || n in a.zones
    ensures (exists c | c in DiffOf(b, a).firewall :: c.name == n) <==> ZoneValues(Find(b.zones, n)) != ZoneValues(Find(a.zones, n))
  {
    ListedExactly(ZONES, b.zones, a.zones);
    hide Compared, ZoneValues;
    MissingZoneShows(Find(b.zones, n));
    MissingZoneShows(Find(a.zones, n));
    assert Unchanged(ZONES, b.zones, a.zones, n) <==> ZoneValues(Find(b.zones, n)) == ZoneValues(Find(a.zones, n));
    if !Unchanged(ZONES, b.zones, a.zones, n) {
      assert ChangeOf(ZONES, b.zones, a.zones, n) in DiffOf(b, a).firewall;
    }
  }

  /** What an item shows: the two hosts' entry of its name, field by field, where they have one. */
  lemma ListedFilesShow(b: Host, a: Host)
    ensures forall c | c in DiffOf(b, a).files ::
              && (c.before.Just? <==> c.name in b.files) && (c.before.Just? ==> FileShown(b.files[c.name], c.before.value))
              && (c.after.Just? <==> c.name in a.files) && (c.after.Just? ==> FileShown(a.files[c.name], c.after.value))
  {
    ListedExactly(FILES, b.files, a.files);
    hide Compared, ByteLen, Unchanged;
  }

  predicate FileShown(f: File, s: FileSummary) {
    && s.path == f.path && s.owner == f.owner && s.group == f.group && s.mode == f.mode && s.selinuxType == f.selinuxType
    && s.directory == f.directory && s.size == ByteLen(f.content)
  }

  lemma ListedServicesShow(b: Host, a: Host)
    ensures forall c | c in DiffOf(b, a).services ::
              && (c.before.Just? <==> c.name in b.services) && (c.before.Just? ==> ServiceShown(b.services[c.name], c.before.value))
              && (c.after.Just? <==> c.name in a.services) && (c.after.Just? ==> ServiceShown(a.services[c.name], c.after.value))
  {
    ListedExactly(SERVICES, b.services, a.services);
    hide Compared, Unchanged;
  }

  predicate ServiceShown(v: Service, s: ServiceSummary) { s.name == v.name && s.enabled == v.enabled && s.state == v.state }

  lemma ListedUsersShow(b: Host, a: Host)
    ensures forall c | c in DiffOf(b, a).users ::
              && (c.before.Just? <==> c.name in b.users) && (c.before.Just? ==> UserShown(b.users[c.name], c.before.value))
              && (c.after.Just? <==> c.name in a.users) && (c.after.Just? ==> UserShown(a.users[c.name], c.after.value))
  {
    ListedExactly(USERS, b.users, a.users);
    hide Compared, Unchanged, SortList;
    forall u: User ensures UserShown(u, USERS.summary(u)) { SortSorts(u.groups); }
  }

  /** The groups are shown sorted. */
  ghost predicate UserShown(u: User, s: UserSummary) {
    && s.name == u.name && s.uid == u.uid && s.gid == u.gid && s.shell == u.shell
    && Ascending(s.groups) && multiset(s.groups) == multiset(u.groups)
  }

  lemma ListedZonesShow(b: Host, a: Host)
    ensures forall c | c in DiffOf(b, a).firewall ::
              && (c.before.Just? <==> c.name in b.zones) && (c.before.Just? ==> ZoneShown(b.zones[c.name], c.before.value))
              && (c.after.Just? <==> c.name in a.zones) && (c.after.Just? ==> ZoneShown(a.zones[c.name], c.after.value))
  {
    ListedExactly(ZONES, b.zones, a.zones);
    hide Compared, Unchanged, ZoneValues;
    forall z: Zone ensures ZoneShown(z, ZONES.summary(z)) { ZoneIsShown(z); }
  }

  /** A zone's interfaces sorted, no list when there are none; its allowed services and its open ports in order. */
  ghost predicate ZoneShown(z: Zone, s: ZoneSummary) {
    && (if z.interfaces == [] then s.interfaces == Nil
        else s.interfaces.List? && Ascending(s.interfaces.values) && multiset(s.interfaces.values) == multiset(z.interfaces))
    && s.services.List? && StrictlySorted(s.services.values) && (forall k :: k in s.services.values <==> k in z.services && z.services[k])
    && s.ports.List? && StrictlySorted(s.ports.values) && (forall k :: k in s.ports.values <==> k in z.ports && z.ports[k])
  }

  lemma ZoneIsShown(z: Zone)
    ensures ZoneShown(z, ZoneValues(Just(z)))
  {
    hide SortList, StrictlySorted;
    SortSorts(z.interfaces);
  }

  /** A package is listed exactly if its version is not the same, and shown by its version. */
  lemma ListedPackagesShow(b: Host, a: Host, n: string)
    requires n in b.packages || n in a.packages
    ensures (exists c | c in DiffOf(b, a).packages :: c.name == n) <==> !(n in b.packages && n in a.packages && b.packages[n] == a.packages[n])
    ensures forall c | c in DiffOf(b, a).packages && c.name == n ::
              && c.before == (if n in b.packages then Just(b.packages[n]) else Nothing)
              && c.after == (if n in a.packages then Just(a.packages[n]) else Nothing)
  {
    ListedExactly(PACKAGES, b.packages, a.packages);
    hide Compared;
    if !Unchanged(PACKAGES, b.packages, a.packages, n) { assert ChangeOf(PACKAGES, b.packages, a.packages, n) in DiffOf(b, a).packages; }
  }

  /** Which users count as changed: another name, number, group number or shell, or other groups, order aside. */
  lemma ListedUsersExact(b: Host, a: Host, n: string)
    requires n in b.users && n in a.users
    ensures var v, w := b.users[n], a.users[n];
            (exists c | c in DiffOf(b, a).users :: c.name == n) <==>
              !(v.name == w.name && v.uid == w.uid && v.gid == w.gid && v.shell == w.shell && multiset(v.groups) == multiset(w.groups))
  {
    ListedExactly(USERS, b.users, a.users);
    hide Compared, SortList;
    SameStringsExact(b.users[n].groups, a.users[n].groups);
    if !Unchanged(USERS, b.users, a.users, n) { assert ChangeOf(USERS, b.users, a.users, n) in DiffOf(b, a).users; }
  }

  /** A unit is listed exactly if it is not the same in every field. */
  lemma ListedServicesExact(b: Host, a: Host, n: string)
    requires n in b.services || n in a.services
    ensures (exists c | c in DiffOf(b, a).services :: c.name == n) <==> !(n in b.services && n in a.services && b.services[n] == a.services[n])
  {
    ListedExactly(SERVICES, b.services, a.services);
    hide Compared;
    if !Unchanged(SERVICES, b.services, a.services, n) { assert ChangeOf(SERVICES, b.services, a.services, n) in DiffOf(b, a).services; }
  }
}
