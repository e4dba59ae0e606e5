/** systemd units and the process table derived from them. */
module Services {
  import opened Text
  import opened Host
  import opened Options
  import Paths

  const UNIT_PREFIX := "/usr/lib/systemd/system/"
  const RUNNING := "running"

  // ---- the table ----

  predicate IsRunning(services: map<string, Service>, name: string) {
    name in services && services[name].state == RUNNING
  }

  function RunningNames(services: map<string, Service>): set<string> {
    set name | name in services && IsRunning(services, name)
  }

  const INIT := Process(1, 0, "root", "S", 1, 4096, "/sbin/init")

  function Row(index: nat, name: string): Process {
    Process(100 + index, 1, "root", "S<", index + 1, 8192 + index * 1024, UNIT_PREFIX + name)
  }

  function Rows(names: seq<string>): seq<Process> {
    seq(|names|, i requires 0 <= i < |names| => Row(i, names[i]))
  }

  /** rebuildProcessesLocked: init, then the running units in name order. */
  function Table(names: set<string>): seq<Process> { [INIT] + Rows(Sorted(names)) }

  function Rebuild(h: Host): Host { h.(processes := Table(RunningNames(h.services))) }

  // ---- operations ----

  function Journal(h: Host, actor: string, unit: string, priority: string, message: string): Host {
    h.(journal := h.journal + [JournalEntry(h.clock, priority, unit, message, actor)])
  }

  function JournalAll(h: Host, actor: string, unit: string, items: seq<JournalSpec>): (r: Host)
    ensures r == h.(journal := r.journal) && |r.journal| == |h.journal| + |items|
    decreases |items|
  {
    if items == [] then h
    else JournalAll(Journal(h, actor, unit, items[0].priority, items[0].message), actor, unit, items[1..])
  }

  predicate Holds(h: Host, c: StartCondition) {
    match c
    case FileContains(path, pattern) => path in h.files && Contains(h.files[path].content, pattern)
    case SelinuxAllows => h.selinux != "disabled"
    case ServiceRunning(name) => IsRunning(h.services, name)
    case FirewallServiceAllowed(zone, service) =>
      zone in h.zones && service in h.zones[zone].services && h.zones[zone].services[service]
    case UnknownCondition => false
  }

  predicate IsWeb(name: string) { name == "httpd.service" || name == "httpd" }

  predicate WebAllowed(zones: map<string, Zone>) {
    exists z | z in zones :: "http" in zones[z].services && zones[z].services["http"]
  }

  function WebPort(address: string): string { Paths.Split(address)[0] + ":80" }

  function WebPorts(addresses: seq<string>): map<string, bool> {
    map a | a in addresses :: WebPort(a) := true
  }

  /** refreshServiceEffectsLocked. */
  function Publish(h: Host, name: string): (r: Host)
    ensures r == h.(openPorts := r.openPorts)
  {
    if IsWeb(name) && IsRunning(h.services, name) && WebAllowed(h.zones) then
      h.(openPorts := h.openPorts + WebPorts(h.addresses))
    else h
  }

  predicate EndsWithWebPort(key: string) { |key| >= 3 && key[|key| - 3..] == ":80" }

  /** clearServiceEffectsLocked. */
  function Withdraw(h: Host, name: string): (r: Host)
    ensures r == h.(openPorts := r.openPorts)
  {
    if IsWeb(name) then h.(openPorts := map k | k in h.openPorts && !EndsWithWebPort(k) :: h.openPorts[k])
    else h
  }

  function WithState(h: Host, name: string, state: string): Host
    requires name in h.services
  {
    h.(services := h.services[name := h.services[name].(state := state)])
  }

  predicate Startable(h: Host, name: string)
    requires name in h.services
  {
    forall c | c in h.services[name].startConditions :: Holds(h, c)
  }

  /** A start refused by its conditions: the unit is failed, the table is not rebuilt. */
  function RefuseStart(h: Host, name: string, user: string): (r: Host)
    requires name in h.services
    ensures r.services == WithState(h, name, "failed").services && r == h.(services := r.services, journal := r.journal)
  {
    JournalAll(WithState(h, name, "failed"), user, name, h.services[name].onFailure)
  }

  function AcceptStart(h: Host, name: string, user: string): (r: Host)
    requires name in h.services
    ensures r.services == WithState(h, name, RUNNING).services && r.processes == Table(RunningNames(r.services))
    ensures r == h.(services := r.services, processes := r.processes, journal := r.journal, openPorts := r.openPorts)
  {
    Journal(Publish(Rebuild(WithState(h, name, RUNNING)), name), user, name, "info", "Started " + name)
  }

  function StartService(h: Host, name: string, user: string): (Host, Outcome) {
    if user != "root" then (h, Failed(NotRoot))
    else if name !in h.services then (h, Failed(NoSuchUnit))
    else if !Startable(h, name) then (RefuseStart(h, name, user), Failed(StartConditionFailed))
    else (AcceptStart(h, name, user), Done)
  }

  function StopService(h: Host, name: string, user: string): (Host, Outcome) {
    if user != "root" then (h, Failed(NotRoot))
    else if name !in h.services then (h, Failed(NoSuchUnit))
    else (Journal(Withdraw(Rebuild(WithState(h, name, "stopped")), name), user, name, "info", "Stopped " + name), Done)
  }

  function EnableService(h: Host, name: string, user: string, enabled: bool): (Host, Outcome) {
    if user != "root" then (h, Failed(NotRoot))
    else if name !in h.services then (h, Failed(NoSuchUnit))
    else (h.(services := h.services[name := h.services[name].(enabled := enabled)]), Done)
  }

  /** The unit a row's command names, if there is one. */
  function UnitOf(h: Host, p: Process): Option<string> {
    if UNIT_PREFIX <= p.command && p.command[|UNIT_PREFIX|..] in h.services then
      Just(p.command[|UNIT_PREFIX|..])
    else Nothing
  }

  /** One stopped unit: one running name fewer, the table untouched. */
  function Terminate(h: Host, name: string, signal: string, user: string): (r: Host)
    requires name in h.services
    ensures r.processes == h.processes && RunningNames(r.services) <= RunningNames(h.services)
  {
    Journal(Withdraw(WithState(h, name, "stopped"), name), user, name, "warning",
            "Stopped " + name + " after signal " + signal)
  }

  /** The loop of SignalProcess over the rows that were in the table at the start. */
  function SignalRows(h: Host, rows: seq<Process>, pid: int, signal: string, user: string): (Host, Outcome)
    decreases |rows|
  {
    if rows == [] then (Rebuild(h), Done)
    else
      var p := rows[0];
      if p.pid != pid then SignalRows(h, rows[1..], pid, signal, user)
      else if user != "root" && user != p.user then (h, Failed(PermissionDenied))
      else
        match UnitOf(h, p)
        case Nothing => SignalRows(h, rows[1..], pid, signal, user)
        case Just(name) => SignalRows(Terminate(h, name, signal, user), rows[1..], pid, signal, user)
  }

  function SignalProcess(h: Host, pid: int, signal: string, user: string): (Host, Outcome) {
    if pid <= 1 then (h, Failed(ProtectedProcess))
    else SignalRows(h, h.processes, pid, signal, user)
  }

  // ---- what the table says ----

  /** The table lists exactly the running units, densely numbered from 100. */
  ghost predicate Synced(h: Host) { h.processes == Table(RunningNames(h.services)) }

  /** The table was built for these units, and no other unit is running. */
  ghost predicate Covers(h: Host, names: set<string>) {
    h.processes == Table(names) && RunningNames(h.services) <= names
  }

  ghost predicate Covered(h: Host) { exists names: set<string> :: Covers(h, names) }

  ghost predicate RowFor(h: Host, name: string, i: nat) {
    i < |h.processes| && h.processes[i].command == UNIT_PREFIX + name
  }

  /** PID 1 is there, PIDs are distinct, and each running unit has exactly one row. */
  ghost predicate TableSound(h: Host) {
    && (exists i: nat | i < |h.processes| :: h.processes[i].pid == 1)
    && (forall i, j | 0 <= i < j < |h.processes| :: h.processes[i].pid != h.processes[j].pid)
    && (forall name | IsRunning(h.services, name) :: exists i: nat :: OnlyRow(h, name, i))
  }

  ghost predicate OnlyRow(h: Host, name: string, i: nat) {
    RowFor(h, name, i) && forall j: nat | RowFor(h, name, j) :: j == i
  }

  lemma SyncedCovers(h: Host)
    requires Synced(h)
    ensures Covered(h)
  {
    assert Covers(h, RunningNames(h.services));
  }

  lemma CommandNames(a: string, b: string)
    requires UNIT_PREFIX + a == UNIT_PREFIX + b
    ensures a == b
  {
    assert (UNIT_PREFIX + a)[|UNIT_PREFIX|..] == a;
    assert (UNIT_PREFIX + b)[|UNIT_PREFIX|..] == b;
  }

  lemma InitIsNoUnit(name: string)
    ensures INIT.command != UNIT_PREFIX + name
  {
    assert INIT.command[1] == 's' && (UNIT_PREFIX + name)[1] == 'u';
  }

  lemma TableRows(names: set<string>, i: nat)
    requires i < |Table(names)|
    ensures |Table(names)| == |Sorted(names)| + 1
    ensures Table(names)[i] == if i == 0 then INIT else Row(i - 1, Sorted(names)[i - 1])
  {}

  lemma SortedDistinct(ns: seq<string>, i: nat, j: nat)
    requires StrictlySorted(ns) && i < |ns| && j < |ns| && ns[i] == ns[j]
    ensures i == j
  {
    LessIrreflexive(ns[i]);
  }

  lemma RowNames(names: set<string>, i: nat, name: string)
    requires i < |Table(names)| && Table(names)[i].command == UNIT_PREFIX + name
    ensures 0 < i <= |Sorted(names)| && Sorted(names)[i - 1] == name
  {
    TableRows(names, i);
    InitIsNoUnit(name);
    hide Table;
    if i > 0 { CommandNames(Sorted(names)[i - 1], name); }
  }

  lemma RowCommand(names: set<string>, i: nat)
    requires i < |Sorted(names)|
    ensures |Table(names)| == |Sorted(names)| + 1
    ensures Table(names)[i + 1].command == UNIT_PREFIX + Sorted(names)[i]
  {
    TableRows(names, i + 1);
    hide Table, UNIT_PREFIX;
  }

  lemma OneRow(h: Host, names: set<string>, name: string, k: nat)
    requires h.processes == Table(names) && k < |Sorted(names)| && Sorted(names)[k] == name
    ensures OnlyRow(h, name, k + 1)
  {
    hide Table, StrictlySorted, UNIT_PREFIX, Sorted;
    var ns := Sorted(names);
    RowCommand(names, k);
    forall j: nat | RowFor(h, name, j) ensures j == k + 1 {
      RowNames(names, j, name);
      SortedDistinct(ns, j - 1, k);
    }
  }

  /** Whatever set a table was built for, its rows are sound. */
  lemma CoveredIsSound(h: Host)
    requires Covered(h)
    ensures TableSound(h)
  {
    var names :| Covers(h, names);
    forall i: nat | i < |h.processes| ensures h.processes[i].pid == if i == 0 then 1 else 99 + i { TableRows(names, i); }
    TableRows(names, 0);
    hide Table, OnlyRow;
    forall name | IsRunning(h.services, name)
      ensures exists i: nat :: OnlyRow(h, name, i)
    {
      assert name in RunningNames(h.services);
      assert name in Sorted(names);
      var k: nat :| k < |Sorted(names)| && Sorted(names)[k] == name;
      OneRow(h, names, name, k);
    }
  }

  /** The table determines the set it was built for. */
  lemma TableInjective(a: set<string>, b: set<string>)
    requires Table(a) == Table(b)
    ensures a == b
  {
    var s, t := Sorted(a), Sorted(b);
    assert |s| == |Table(a)| - 1 == |t|;
    forall i | 0 <= i < |s| ensures s[i] == t[i] {
      assert Table(a)[i + 1].command == UNIT_PREFIX + s[i];
      assert Table(b)[i + 1].command == UNIT_PREFIX + t[i];
      CommandNames(s[i], t[i]);
    }
    assert s == t;
    assert forall x :: x in a <==> x in s;
    assert forall x :: x in b <==> x in t;
  }

  // ---- steps ----

  /** What a start leaves of units and table. */
  lemma StartShape(h: Host, name: string, user: string)
    ensures var after := StartService(h, name, user).0;
            if user != "root" || name !in h.services then after == h
            else if Startable(h, name) then Synced(after)
            else after.processes == h.processes && after.services == WithState(h, name, "failed").services
  {}

  lemma FailedNames(h: Host, name: string)
    requires name in h.services
    ensures RunningNames(WithState(h, name, "failed").services) == RunningNames(h.services) - {name}
  {}

  /** Starting a unit leaves a correct table correct, except in one case: a
      condition fails while the unit was running. */
  lemma StartSyncExact(h: Host, name: string, user: string)
    requires Synced(h)
    ensures Synced(StartService(h, name, user).0)
       <==> !(user == "root" && name in h.services && !Startable(h, name) && IsRunning(h.services, name))
  {
    StartShape(h, name, user);
    if user == "root" && name in h.services && !Startable(h, name) {
      FailedNames(h, name);
      StaleTable(StartService(h, name, user).0, RunningNames(h.services), name);
      assert IsRunning(h.services, name) <==> name in RunningNames(h.services);
    }
  }

  /** A table that still lists `name` after it stopped is not the exact one. */
  lemma StaleTable(after: Host, before: set<string>, name: string)
    requires after.processes == Table(before) && RunningNames(after.services) == before - {name}
    ensures Synced(after) <==> name !in before
  {
    if name in before {
      if Table(before - {name}) == Table(before) { TableInjective(before - {name}, before); }
    } else {
      assert before - {name} == before;
    }
  }

  datatype ServiceOp =
    | Start(name: string)
    | Stop(name: string)
    | Enable(name: string, enabled: bool)
    | Signal(pid: int, signal: string)
    | ResetAll

  /** One operation of a machine whose snapshot is `initial`. */
  function StepService(h: Host, initial: Host, op: ServiceOp, user: string): Host {
    match op
    case Start(name) => StartService(h, name, user).0
    case Stop(name) => StopService(h, name, user).0
    case Enable(name, enabled) => EnableService(h, name, user, enabled).0
    case Signal(pid, signal) => SignalProcess(h, pid, signal, user).0
    case ResetAll => initial
  }

  /** A start that fails while the unit is running. */
  ghost predicate FailsRunning(h: Host, op: ServiceOp, user: string) {
    op.Start? && user == "root" && op.name in h.services
    && !Startable(h, op.name) && IsRunning(h.services, op.name)
  }

  /** Signalling ends in a rebuilt table, or stops early with fewer units running. */
  lemma {:induction false} SignalRowsEffect(h: Host, rows: seq<Process>, pid: int, signal: string, user: string)
    ensures var (after, outcome) := SignalRows(h, rows, pid, signal, user);
            && RunningNames(after.services) <= RunningNames(h.services)
            && (outcome.Done? ==> Synced(after))
            && (outcome.Failed? ==> after.processes == h.processes)
    decreases |rows|
  {
    if rows != [] {
      match UnitOf(h, rows[0])
      case Nothing => SignalRowsEffect(h, rows[1..], pid, signal, user);
      case Just(name) =>
        SignalRowsEffect(h, rows[1..], pid, signal, user);
        SignalRowsEffect(Terminate(h, name, signal, user), rows[1..], pid, signal, user);
    }
  }

  /** With distinct PIDs a refused signal has changed nothing. */
  lemma {:induction false} RefusedSignalChangesNothing(h: Host, rows: seq<Process>, pid: int, signal: string, user: string)
    requires forall i, j | 0 <= i < j < |rows| :: rows[i].pid != rows[j].pid
    requires SignalRows(h, rows, pid, signal, user).1.Failed?
    ensures SignalRows(h, rows, pid, signal, user).0 == h
    decreases |rows|
  {
    var p := rows[0];
    if p.pid != pid {
      RefusedSignalChangesNothing(h, rows[1..], pid, signal, user);
    } else if user == "root" || user == p.user {
      assert forall q | q in rows[1..] :: q.pid != pid;
      var next := match UnitOf(h, p)
        case Nothing => h
        case Just(name) => Terminate(h, name, signal, user);
      NoOtherRow(next, rows[1..], pid, signal, user);
    }
  }

  lemma {:induction false} NoOtherRow(h: Host, rows: seq<Process>, pid: int, signal: string, user: string)
    requires forall q | q in rows :: q.pid != pid
    ensures SignalRows(h, rows, pid, signal, user) == (Rebuild(h), Done)
    decreases |rows|
  {
    if rows != [] {
      assert rows[0] in rows;
      NoOtherRow(h, rows[1..], pid, signal, user);
    }
  }

  lemma SignalShape(h: Host, pid: int, signal: string, user: string)
    ensures var (after, outcome) := SignalProcess(h, pid, signal, user);
            && RunningNames(after.services) <= RunningNames(h.services)
            && (outcome.Done? ==> Synced(after))
            && (outcome.Failed? ==> after.processes == h.processes)
            && (outcome.Failed? && TableSound(h) ==> after == h)
  {
    if pid > 1 {
      SignalRowsEffect(h, h.processes, pid, signal, user);
      if SignalProcess(h, pid, signal, user).1.Failed? && TableSound(h) {
        RefusedSignalChangesNothing(h, h.processes, pid, signal, user);
      }
    }
  }

  lemma StopShape(h: Host, name: string, user: string)
    ensures var after := StopService(h, name, user).0; after == h || Synced(after)
  {}

  lemma EnableShape(h: Host, name: string, user: string, enabled: bool)
    ensures var after := EnableService(h, name, user, enabled).0;
            after.processes == h.processes && RunningNames(after.services) == RunningNames(h.services)
  {}

  /** Every operation keeps the rows sound. */
  lemma StepKeepsCovered(h: Host, initial: Host, op: ServiceOp, user: string)
    requires Covered(h) && Covered(initial)
    ensures Covered(StepService(h, initial, op, user))
  {
    var after := StepService(h, initial, op, user);
    if op.Start? {
      StartShape(h, op.name, user);
      if op.name in h.services { FailedNames(h, op.name); }
    } else if op.Stop? {
      StopShape(h, op.name, user);
    } else if op.Enable? {
      EnableShape(h, op.name, user, op.enabled);
    } else if op.Signal? {
      SignalShape(h, op.pid, op.signal, user);
    }
    if Synced(after) {
      SyncedCovers(after);
    } else if after != initial {
      var names :| Covers(h, names);
      assert Covers(after, names);
    }
  }

  /** Without a failed start on a running unit, the table stays the exact list. */
  lemma StepKeepsSynced(h: Host, initial: Host, op: ServiceOp, user: string)
    requires Synced(h) && Synced(initial) && !FailsRunning(h, op, user)
    ensures Synced(StepService(h, initial, op, user))
  {
    SyncedCovers(h);
    CoveredIsSound(h);
    if op.Start? {
      StartSyncExact(h, op.name, user);
    } else if op.Stop? {
      StopShape(h, op.name, user);
    } else if op.Enable? {
      EnableShape(h, op.name, user, op.enabled);
    } else if op.Signal? {
      SignalShape(h, op.pid, op.signal, user);
    }
  }

  // ---- runs ----

  function RunServices(h: Host, initial: Host, ops: seq<(ServiceOp, string)>): Host
    decreases |ops|
  {
    if ops == [] then h else RunServices(StepService(h, initial, ops[0].0, ops[0].1), initial, ops[1..])
  }

  ghost predicate NeverFailsRunning(h: Host, initial: Host, ops: seq<(ServiceOp, string)>)
    decreases |ops|
  {
    ops == [] ||
    (!FailsRunning(h, ops[0].0, ops[0].1)
     && NeverFailsRunning(StepService(h, initial, ops[0].0, ops[0].1), initial, ops[1..]))
  }

  /** In every reachable state the table is sound; and it is the exact sorted list
      when no failed start hit a running unit on the way. */
  lemma {:induction false} TableAlwaysSound(h: Host, initial: Host, ops: seq<(ServiceOp, string)>)
    requires Covered(h) && Covered(initial)
    ensures TableSound(RunServices(h, initial, ops))
    ensures Synced(h) && Synced(initial) && NeverFailsRunning(h, initial, ops) ==> Synced(RunServices(h, initial, ops))
    decreases |ops|
  {
    if ops == [] {
      CoveredIsSound(h);
    } else {
      StepKeepsCovered(h, initial, ops[0].0, ops[0].1);
      if Synced(h) && Synced(initial) && !FailsRunning(h, ops[0].0, ops[0].1) {
        StepKeepsSynced(h, initial, ops[0].0, ops[0].1);
      }
      TableAlwaysSound(StepService(h, initial, ops[0].0, ops[0].1), initial, ops[1..]);
    }
  }

  // ---- what starting and stopping change ----

  /** No unit but `name`, which is now in `state`. */
  ghost predicate OnlyUnit(h: Host, after: Host, name: string, state: string)
    requires name in h.services
  {
    after.services == h.services[name := h.services[name].(state := state)]
  }

  predicate OpensAt(addresses: seq<string>, key: string) { exists a | a in addresses :: key == WebPort(a) }

  lemma WebPortKeys(addresses: seq<string>)
    ensures forall k :: k in WebPorts(addresses) <==> OpensAt(addresses, k)
    ensures forall k | k in WebPorts(addresses) :: WebPorts(addresses)[k]
  {
    hide WebPort;
  }

  /** The ports as they were, and port 80 of every address open, if `web`. */
  ghost predicate PortsOpened(h: Host, ports: map<string, bool>, web: bool) {
    && (forall k :: k in ports <==> k in h.openPorts || (web && OpensAt(h.addresses, k)))
    && (forall k | k in ports :: if web && OpensAt(h.addresses, k) then ports[k] else k in h.openPorts && ports[k] == h.openPorts[k])
  }

  /** Publishing opens port 80 of every address, if the web server runs and a zone allows http. */
  lemma PublishMeaning(h: Host, name: string)
    ensures PortsOpened(h, Publish(h, name).openPorts, IsWeb(name) && IsRunning(h.services, name) && WebAllowed(h.zones))
  {
    hide IsWeb, WebAllowed, WebPorts, OpensAt, IsRunning;
    WebPortKeys(h.addresses);
  }

  /** With every condition met the unit runs, one line is logged, and a web server
      opens port 80 of every address once a zone allows http. */
  lemma StartMeaning(h: Host, name: string)
    requires name in h.services && Startable(h, name)
    ensures var (after, r) := StartService(h, name, "root");
            && r == Done && OnlyUnit(h, after, name, RUNNING)
            && after.journal == h.journal + [JournalEntry(h.clock, "info", name, "Started " + name, "root")]
            && PortsOpened(h, after.openPorts, IsWeb(name) && WebAllowed(h.zones))
  {
    hide Startable, Publish, Table, IsWeb, WebAllowed, PortsOpened, RunningNames, INIT, IsRunning;
    var running := Rebuild(WithState(h, name, RUNNING));
    SetRunning(h, name);
    PublishMeaning(running, name);
    SamePorts(h, running, Publish(running, name).openPorts, IsWeb(name) && WebAllowed(h.zones));
  }

  lemma SetRunning(h: Host, name: string)
    requires name in h.services
    ensures IsRunning(WithState(h, name, RUNNING).services, name)
  {}

  lemma SamePorts(h: Host, g: Host, ports: map<string, bool>, web: bool)
    requires PortsOpened(g, ports, web) && g.openPorts == h.openPorts && g.addresses == h.addresses
    ensures PortsOpened(h, ports, web)
  {}

  /** With a condition unmet the unit is failed and no port changes; FailureLogged says what is logged. */
  lemma RefusalMeaning(h: Host, name: string)
    requires name in h.services && !Startable(h, name)
    ensures var (after, r) := StartService(h, name, "root");
            && r == Failed(StartConditionFailed) && OnlyUnit(h, after, name, "failed") && after.openPorts == h.openPorts
            && after.journal == JournalAll(WithState(h, name, "failed"), "root", name, h.services[name].onFailure).journal
  {
    hide Startable, JournalAll;
  }

  /** The messages of a failed start, in order, at the current time. */
  lemma {:induction false} FailureLogged(h: Host, user: string, name: string, items: seq<JournalSpec>, i: nat)
    requires i < |items|
    ensures var after := JournalAll(h, user, name, items).journal;
            |after| == |h.journal| + |items|
            && after[|h.journal| + i] == JournalEntry(h.clock, items[i].priority, name, items[i].message, user)
            && after[..|h.journal|] == h.journal
    decreases |items|
  {
    var next := Journal(h, user, name, items[0].priority, items[0].message);
    if i > 0 {
      FailureLogged(next, user, name, items[1..], i - 1);
    } else if |items| > 1 {
      FailureLogged(next, user, name, items[1..], 0);
    }
  }

  /** A stop ends in a stopped unit; of a web server it closes every port 80 and no other port. */
  lemma StopMeaning(h: Host, name: string)
    requires name in h.services
    ensures var (after, r) := StopService(h, name, "root");
            && r.Done? && OnlyUnit(h, after, name, "stopped")
            && after.journal == h.journal + [JournalEntry(h.clock, "info", name, "Stopped " + name, "root")]
            && (forall k :: k in after.openPorts <==> k in h.openPorts && !(IsWeb(name) && EndsWithWebPort(k)))
            && (forall k | k in after.openPorts :: after.openPorts[k] == h.openPorts[k])
  {
    hide Table, IsWeb, EndsWithWebPort;
  }

  /** What a start has opened, the stop of the same unit closes. */
  lemma StopUndoesStart(h: Host, name: string, a: string)
    requires name in h.services && IsWeb(name) && a in h.addresses
    ensures WebPort(a) !in StopService(StartService(h, name, "root").0, name, "root").0.openPorts
  {
    hide StartService, StopService, Paths.Split, Table, Startable, PortsOpened, IsWeb, JournalAll;
    var started := StartService(h, name, "root").0;
    if Startable(h, name) { StartMeaning(h, name); } else { RefusalMeaning(h, name); }
    StopMeaning(started, name);
    assert WebPort(a)[|WebPort(a)| - 3..] == ":80";
  }
}
