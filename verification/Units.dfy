/** What starting, stopping and signalling a unit leave, and when a start is refused. */
module Units {
  import opened Text
  import opened Host
  import opened Options
  import opened Services
  import opened FileTree
  import Paths
  import FileMeaning
  import M = Machine

  /** One unit has a new state, and every other entry of the table is what it was. */
  ghost predicate OnlyState(h: Host, after: Host, name: string, state: string) {
    && name in h.services && name in after.services && after.services.Keys == h.services.Keys
    && after.services[name] == h.services[name].(state := state)
    && forall n | n in h.services && n != name :: after.services[n] == h.services[n]
  }

  /** The ports that a stop of the unit leaves open or closed as they were. */
  predicate Stays(name: string, key: string) {
    !((name == "httpd" || name == "httpd.service") && |key| >= 3 && key[|key| - 3..] == ":80")
  }

  ghost predicate PortsLeft(h: Host, after: Host, name: string) {
    && (forall k :: k in after.openPorts <==> k in h.openPorts && Stays(name, k))
    && (forall k | k in after.openPorts :: after.openPorts[k] == h.openPorts[k])
  }

  lemma StaysExact(name: string, key: string)
    ensures Stays(name, key) <==> !(IsWeb(name) && EndsWithWebPort(key))
  {}

  lemma WithdrawLeaves(h: Host, name: string)
    ensures PortsLeft(h, Withdraw(h, name), name)
  {
    hide Stays, IsWeb, EndsWithWebPort;
    forall key ensures Stays(name, key) <==> !(IsWeb(name) && EndsWithWebPort(key)) { StaysExact(name, key); }
  }

  lemma SetOnly(h: Host, name: string, state: string)
    requires name in h.services
    ensures OnlyState(h, WithState(h, name, state), name, state)
  {}

  /** A stop sets one unit stopped, rebuilds the table, logs one line, and closes the ports of the web
      server and no others. */
  lemma StopMeaning(h: Host, name: string)
    requires name in h.services
    ensures var (after, r) := StopService(h, name, "root");
            && r == Done && OnlyState(h, after, name, "stopped") && Synced(after) && PortsLeft(h, after, name)
            && after.journal == h.journal + [JournalEntry(h.clock, "info", name, "Stopped " + name, "root")]
  {
    hide Withdraw, Table, RunningNames, PortsLeft, OnlyState;
    var stopped := Rebuild(WithState(h, name, "stopped"));
    WithdrawLeaves(stopped, name);
    SetOnly(h, name, "stopped");
    SamePortsLeft(h, stopped, Withdraw(stopped, name), StopService(h, name, "root").0, name);
    SameOnly(h, WithState(h, name, "stopped"), StopService(h, name, "root").0, name, "stopped");
  }

  lemma SamePortsLeft(h: Host, g: Host, gone: Host, after: Host, name: string)
    requires PortsLeft(g, gone, name) && g.openPorts == h.openPorts && after.openPorts == gone.openPorts
    ensures PortsLeft(h, after, name)
  {}

  lemma SameOnly(h: Host, g: Host, after: Host, name: string, state: string)
    requires OnlyState(h, g, name, state) && after.services == g.services
    ensures OnlyState(h, after, name, state)
  {}

  /** Units are operated by root alone, and only those that are there. */
  lemma OperatedByRoot(h: Host, name: string, user: string, enabled: bool)
    ensures user != "root" ==>
              && StartService(h, name, user) == (h, Failed(NotRoot)) && StopService(h, name, user) == (h, Failed(NotRoot))
              && EnableService(h, name, user, enabled) == (h, Failed(NotRoot))
    ensures user == "root" && name !in h.services ==>
              && StartService(h, name, user) == (h, Failed(NoSuchUnit)) && StopService(h, name, user) == (h, Failed(NoSuchUnit))
              && EnableService(h, name, user, enabled) == (h, Failed(NoSuchUnit))
  {
    hide Startable, AcceptStart, RefuseStart;
  }

  // ---- signals ----

  /** Each row with this PID names a unit that is there. */
  ghost predicate SoleRow(h: Host, name: string, i: nat) {
    && i < |h.processes| && h.processes[i].command == UNIT_PREFIX + name && name in h.services
    && forall j | 0 <= j < |h.processes| && h.processes[j].pid == h.processes[i].pid :: j == i
  }

  lemma {:induction false} NoSuchRow(h: Host, rows: seq<Process>, pid: int, signal: string, user: string)
    requires forall p | p in rows :: p.pid != pid
    ensures SignalRows(h, rows, pid, signal, user) == (Rebuild(h), Done)
    decreases |rows|
  {
    if rows != [] {
      assert rows[0] in rows && forall p | p in rows[1..] :: p in rows;
      NoSuchRow(h, rows[1..], pid, signal, user);
    }
  }

  lemma {:induction false} OneRow(h: Host, rows: seq<Process>, i: nat, signal: string, user: string, name: string)
    requires i < |rows| && rows[i].command == UNIT_PREFIX + name && name in h.services
    requires forall j | 0 <= j < |rows| && rows[j].pid == rows[i].pid :: j == i
    ensures SignalRows(h, rows, rows[i].pid, signal, user) ==
            if user != "root" && user != rows[i].user then (h, Failed(PermissionDenied))
            else (Rebuild(Terminate(h, name, signal, user)), Done)
    decreases |rows|
  {
    hide Terminate, Rebuild;
    var rest := rows[1..];
    if i == 0 {
      NamedUnit(h, rows[0], name);
      forall p | p in rest ensures p.pid != rows[0].pid {
        var k :| 0 <= k < |rest| && rest[k] == p;
        assert rows[k + 1] == p;
      }
      NoSuchRow(Terminate(h, name, signal, user), rest, rows[0].pid, signal, user);
    } else {
      assert rows[0].pid != rows[i].pid && rest[i - 1] == rows[i];
      forall j | 0 <= j < |rest| && rest[j].pid == rest[i - 1].pid ensures j == i - 1 { assert rows[j + 1] == rest[j]; }
      OneRow(h, rest, i - 1, signal, user, name);
    }
  }

  lemma NamedUnit(h: Host, p: Process, name: string)
    requires p.command == UNIT_PREFIX + name && name in h.services
    ensures UnitOf(h, p) == Just(name)
  {
    assert p.command[|UNIT_PREFIX|..] == name;
  }

  /** A signal to the one row of a unit, by root or the row's user, stops that unit and no other,
      rebuilds the table, logs one warning and closes the web server's ports; by anyone else it
      changes nothing; and process 1 is out of reach. */
  lemma SignalMeaning(h: Host, i: nat, name: string, signal: string, user: string)
    requires SoleRow(h, name, i)
    ensures var row := h.processes[i];
            var (after, r) := SignalProcess(h, row.pid, signal, user);
            && (row.pid <= 1 ==> (after, r) == (h, Failed(ProtectedProcess)))
            && (row.pid > 1 && user != "root" && user != row.user ==> (after, r) == (h, Failed(PermissionDenied)))
            && (row.pid > 1 && (user == "root" || user == row.user) ==>
                  && r == Done && OnlyState(h, after, name, "stopped") && Synced(after) && PortsLeft(h, after, name)
                  && after.journal == h.journal + [JournalEntry(h.clock, "warning", name, "Stopped " + name + " after signal " + signal, user)])
  {
    hide Withdraw, Table, RunningNames, PortsLeft, OnlyState, UNIT_PREFIX, SignalRows;
    OneRow(h, h.processes, i, signal, user, name);
    var stopped := WithState(h, name, "stopped");
    WithdrawLeaves(stopped, name);
    SetOnly(h, name, "stopped");
    var after := Rebuild(Terminate(h, name, signal, user));
    SamePortsLeft(h, stopped, Withdraw(stopped, name), after, name);
    SameOnly(h, stopped, after, name, "stopped");
  }

  /** A signal to no row is accepted and only rebuilds the table. */
  lemma SignalToNobody(h: Host, pid: int, signal: string, user: string)
    requires pid > 1 && forall p | p in h.processes :: p.pid != pid
    ensures SignalProcess(h, pid, signal, user) == (Rebuild(h), Done)
  {
    hide Rebuild;
    NoSuchRow(h, h.processes, pid, signal, user);
  }

  // ---- start conditions ----

  /** What each kind of start condition asks of the host. */
  ghost predicate Met(h: Host, c: StartCondition) {
    match c
    case FileContains(path, pattern) =>
      path in h.files && exists a, b :: h.files[path].content == a + pattern + b
    case SelinuxAllows => !(h.selinux == "disabled")
    case ServiceRunning(name) => name in h.services && h.services[name].state == "running"
    case FirewallServiceAllowed(zone, service) =>
      zone in h.zones && service in h.zones[zone].services && h.zones[zone].services[service]
    case UnknownCondition => false
  }

  lemma ContainsExact(text: string, part: string)
    ensures Contains(text, part) <==> exists a, b :: text == a + part + b
  {
    if Contains(text, part) {
      var i: nat :| i <= |text| && At(text, part, i);
      assert text == text[..i] + part + text[i + |part|..];
    }
    if a, b :| text == a + part + b {
      assert text[|a|..|a| + |part|] == part;
      assert At(text, part, |a|);
    }
  }

  lemma MetExact(h: Host, c: StartCondition)
    ensures Services.Holds(h, c) <==> Met(h, c)
  {
    hide Contains;
    if c.FileContains? && c.path in h.files { ContainsExact(h.files[c.path].content, c.pattern); }
  }

  /** A start by root is carried out exactly if every condition of the unit is met. */
  lemma StartExact(h: Host, name: string)
    requires name in h.services
    ensures StartService(h, name, "root").1 == Done <==> forall c | c in h.services[name].startConditions :: Met(h, c)
    ensures StartService(h, name, "root").1 != Done ==> StartService(h, name, "root").1 == Failed(StartConditionFailed)
  {
    hide AcceptStart, RefuseStart, Services.Holds, Met;
    forall c ensures Services.Holds(h, c) <==> Met(h, c) { MetExact(h, c); }
  }

  /** Conditions that operations bring about: a write its text, the firewall its service. */
  lemma OperationsMeet(h: Host, p: string, text: string, part: string, zone: string, service: string)
    requires Paths.Canonical(h.cwd) && Paths.Canonical(p) && zone in h.zones
    requires WriteFile(h, p, text, "root", false).1.Done? && Contains(text, part)
    ensures Met(WriteFile(h, p, text, "root", false).0, FileContains(p, part))
    ensures Met(M.AllowFirewall(h, zone, service, "root").0, FirewallServiceAllowed(zone, service))
  {
    hide Paths.Canonical, WriteFile, Paths.NormalizePath, Contains, FileMeaning.OnlyAncestorsAdded;
    Paths.NormalizeIdempotent(p, h.cwd);
    Paths.CleanCanonical(p);
    FileMeaning.WriteMeaning(h, p, text, "root", false);
    ContainsExact(text, part);
  }

  // ---- the process table ----

  /** A correct table: init, and one row for each running unit, in the order of their names, owned by root. */
  lemma TableExact(h: Host, i: nat)
    requires Synced(h)
    ensures var names := Sorted(RunningNames(h.services));
            && |h.processes| == 1 + |names|
            && h.processes[0] == Process(1, 0, "root", "S", 1, 4096, "/sbin/init")
            && (i < |names| ==> h.processes[i + 1] == Process(100 + i, 1, "root", "S<", i + 1, 8192 + i * 1024, "/usr/lib/systemd/system/" + names[i]))
            && (forall n :: n in names <==> n in h.services && h.services[n].state == "running")
  {
    hide StrictlySorted;
  }

  /** So root stops any running unit by its PID, and nobody else does. */
  lemma KillExact(h: Host, name: string, signal: string, user: string) returns (pid: int)
    requires Synced(h) && IsRunning(h.services, name)
    ensures pid >= 100
    ensures var (after, r) := SignalProcess(h, pid, signal, user);
            && (user == "root" ==> r == Done && OnlyState(h, after, name, "stopped") && Synced(after) && PortsLeft(h, after, name))
            && (user != "root" ==> (after, r) == (h, Failed(PermissionDenied)))
  {
    hide SignalProcess, OnlyState, PortsLeft, StrictlySorted, Table;
    var names := Sorted(RunningNames(h.services));
    assert name in RunningNames(h.services) && name in names;
    var k: nat :| k < |names| && names[k] == name;
    TableExact(h, k);
    pid := 100 + k;
    forall j | 0 <= j < |h.processes| && h.processes[j].pid == 100 + k ensures j == k + 1 {
      if j > 0 { TableExact(h, j - 1); }
    }
    SignalMeaning(h, k + 1, name, signal, user);
  }
}
