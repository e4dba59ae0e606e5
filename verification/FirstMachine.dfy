/** What a new machine holds, said of the scenario and its package alone: files, zones, ports, messages. */
module FirstMachine {
  import opened Paths
  import opened Host
  import opened FileTree
  import opened Boot
  import Services

  // ---- files ----

  /** Entry `i` is the last with its path. */
  ghost predicate LastOf(entries: seq<EntrySpec>, i: nat, p: string) {
    && i < |entries| && NormalizePath(entries[i].path, "/") == Ok(p)
    && forall j: nat | i < j < |entries| :: NormalizePath(entries[j].path, "/") != Ok(p)
  }

  ghost predicate Taken(entries: seq<EntrySpec>, p: string) { exists i: nat :: LastOf(entries, i, p) }

  lemma {:induction false} EntriesAt(entries: seq<EntrySpec>, p: string)
    requires EntryFiles(entries).Made?
    ensures p in EntryFiles(entries).value <==> Taken(entries, p)
    ensures forall i: nat | LastOf(entries, i, p) :: EntryFile(entries[i]).Made? && EntryFiles(entries).value[p] == EntryFile(entries[i]).value
    decreases |entries|
  {
    hide NormalizePath, ParseMode;
    if entries != [] {
      var n := |entries| - 1;
      var front := entries[..n];
      EntriesAt(front, p);
      if NormalizePath(entries[n].path, "/") == Ok(p) {
        assert LastOf(entries, n, p);
      } else {
        forall i: nat ensures LastOf(entries, i, p) <==> LastOf(front, i, p) {
          if LastOf(front, i, p) {
            forall j: nat | i < j < |entries| ensures NormalizePath(entries[j].path, "/") != Ok(p) {
              if j < n { assert front[j] == entries[j]; }
            }
          }
          if LastOf(entries, i, p) {
            forall j: nat | i < j < |front| ensures NormalizePath(front[j].path, "/") != Ok(p) { assert entries[j] == front[j]; }
          }
        }
      }
    }
  }

  /** A file of a new machine is the last entry of its path, or, where there is none, the file of the package
      below `files/`, as root's with mode 0644; everything else is the base's, or a missing directory. */
  lemma BootedFiles(B: Base, spec: Scenario, package: map<string, string>, clock: int, h: Host, rest: string, i: nat)
    requires Booted(B, spec, package, clock, h)
    ensures i < |spec.entries| ==> EntryFile(spec.entries[i]).Made?
    ensures i < |spec.entries| && LastOf(spec.entries, i, EntryFile(spec.entries[i]).value.path) ==>
              var f := EntryFile(spec.entries[i]).value; f.path in h.files && h.files[f.path] == f
    ensures rest != "" && "files/" + rest in package && !Taken(spec.entries, "/" + rest) ==>
              "/" + rest in h.files && h.files["/" + rest] == File("/" + rest, package["files/" + rest], "root", "root", 0x1a4, "", false)
  {
    hide NormalizePath, ParseMode, WithUnits, Outline, LastOf, EntryFile, EntryFiles, Mounted, Overlay, MOUNT;
    AllMade(spec.entries, i);
    var placed := AllPlaced(spec, package);
    var entries := EntryFiles(spec.entries).value;
    PlacedStays(BaseFiles(B, spec, clock), placed, h.files);
    if i < |spec.entries| {
      var p := EntryFile(spec.entries[i]).value.path;
      EntriesAt(spec.entries, p);
      assert LastOf(spec.entries, i, p) ==> Taken(spec.entries, p);
      MountedApart(package, entries.Keys, package.Keys);
    }
    EntriesAt(spec.entries, "/" + rest);
    if rest != "" && "files/" + rest in package && !Taken(spec.entries, "/" + rest) { MountedFile(package, entries.Keys, rest); }
  }

  lemma {:induction false} AllMade(entries: seq<EntrySpec>, i: nat)
    requires EntryFiles(entries).Made?
    ensures i < |entries| ==> EntryFile(entries[i]).Made?
    decreases |entries|
  {
    hide EntryFile;
    if entries != [] { AllMade(entries[..|entries| - 1], i); }
  }

  lemma PlacedStays(base: Files, placed: Files, files: Files)
    requires Overlay(base, placed, files)
    ensures forall p | p in placed :: p in files && files[p] == placed[p]
  {
    hide Canonical, Under;
  }

  lemma MountedApart(package: map<string, string>, taken: set<string>, names: set<string>)
    ensures forall v | v in taken :: v !in Mounted(package, taken, names)
  {
    hide MOUNT;
  }

  lemma MountedFile(package: map<string, string>, taken: set<string>, rest: string)
    requires rest != "" && "files/" + rest in package && "/" + rest !in taken
    ensures var v := "/" + rest;
            && v in Mounted(package, taken, package.Keys)
            && Mounted(package, taken, package.Keys)[v] == File(v, package["files/" + rest], "root", "root", 0x1a4, "", false)
  {
    var name := "files/" + rest;
    MountName(rest);
    SourceOfVirtual(name);
    assert Virtual(name) in VirtualNames(package.Keys);
  }

  lemma MountName(rest: string)
    requires rest != ""
    ensures Mounts("files/" + rest) && Virtual("files/" + rest) == "/" + rest
  {
    var name := "files/" + rest;
    assert name[..6] == "files/" && name[6..] == rest && |name| > 6;
  }

  // ---- zones and ports ----

  /** The zones are the scenario's, with exactly their services and ports allowed. */
  lemma BootedZones(B: Base, spec: Scenario, package: map<string, string>, clock: int, h: Host, z: string, s: string)
    requires Booted(B, spec, package, clock, h)
    ensures z in h.zones <==> z in spec.zones
    ensures z in h.zones ==>
              && h.zones[z].interfaces == spec.zones[z].interfaces
              && (s in h.zones[z].services <==> s in spec.zones[z].services) && (s in h.zones[z].services ==> h.zones[z].services[s])
              && (s in h.zones[z].ports <==> s in spec.zones[z].ports) && (s in h.zones[z].ports ==> h.zones[z].ports[s])
  {
    hide Overlay, AllPlaced, FirstPorts, Services.Table, Filed, Environment, HostName, UserTable;
    KeptZones(Outline(spec, clock, h.files), spec.services);
  }

  lemma KeptZones(h: Host, services: seq<Service>)
    ensures var after := WithUnits(h, services);
            && after.zones == h.zones && after.addresses == h.addresses && after.services == h.services
            && after.openPorts == FirstPorts(h.services, h.zones, h.addresses, h.services.Keys)
            && after.journal == FirstJournal(Services.Rebuild(h.(openPorts := after.openPorts)), services).journal
  {
    hide FirstPorts, Services.Table;
  }

  ghost predicate HttpAllowed(zones: map<string, ZoneSpec>) { exists z :: z in zones && "http" in zones[z].services }

  ghost predicate WebRuns(services: map<string, Service>) {
    || ("httpd" in services && services["httpd"].state == "running")
    || ("httpd.service" in services && services["httpd.service"].state == "running")
  }

  /** On a new machine exactly port 80 of every address is open, and only if a web unit runs that
      a zone of the scenario allows. */
  lemma BootedPorts(B: Base, spec: Scenario, package: map<string, string>, clock: int, h: Host, key: string)
    requires Booted(B, spec, package, clock, h)
    ensures key in h.openPorts <==>
              WebRuns(h.services) && HttpAllowed(spec.zones) && exists a :: a in spec.addresses && key == Split(a)[0] + ":80"
    ensures key in h.openPorts ==> h.openPorts[key]
  {
    hide Overlay, AllPlaced, Services.Table, Filed, Environment, HostName, UserTable, FirstPorts, Split;
    var outline := Outline(spec, clock, h.files);
    KeptZones(outline, spec.services);
    AllowedZones(spec.zones);
    ServesExact(outline.services, outline.zones);
    PortsExact(outline.services, outline.zones, outline.addresses, key);
  }

  lemma AllowedZones(zones: map<string, ZoneSpec>)
    ensures Services.WebAllowed(ZoneTable(zones)) <==> HttpAllowed(zones)
  {
    hide SetOf;
    forall z | z in zones
      ensures ("http" in ZoneTable(zones)[z].services && ZoneTable(zones)[z].services["http"]) <==> "http" in zones[z].services
    {
      SetExact(zones[z].services, "http");
    }
  }

  lemma SetExact(values: seq<string>, v: string)
    ensures v in SetOf(values) <==> v in values
    ensures v in SetOf(values) ==> SetOf(values)[v]
  {}

  lemma ServesExact(services: map<string, Service>, zones: map<string, Zone>)
    ensures Serves(services, zones, services.Keys) <==> Services.WebAllowed(zones) && WebRuns(services)
  {
    hide Services.WebAllowed;
    if WebRuns(services) {
      var n := if "httpd" in services && services["httpd"].state == "running" then "httpd" else "httpd.service";
      assert n in services.Keys && Services.IsWeb(n) && Services.IsRunning(services, n);
    }
  }

  lemma PortsExact(services: map<string, Service>, zones: map<string, Zone>, addresses: seq<string>, key: string)
    ensures var ports := FirstPorts(services, zones, addresses, services.Keys);
            && (key in ports <==> Serves(services, zones, services.Keys) && exists a :: a in addresses && key == Split(a)[0] + ":80")
            && (key in ports ==> ports[key])
  {
    hide Serves, Split;
  }

  // ---- messages ----

  function Messages(clock: int, services: seq<Service>): seq<JournalEntry> {
    if services == [] then [] else MessagesOf(clock, services[0].name, services[0].onFailure) + Messages(clock, services[1..])
  }

  function MessagesOf(clock: int, unit: string, items: seq<JournalSpec>): seq<JournalEntry> {
    seq(|items|, i requires 0 <= i < |items| => JournalEntry(clock, items[i].priority, unit, items[i].message, ""))
  }

  /** The journal of a new machine: the failure messages of the scenario's units, unit by unit in its order,
      at the time of the start and by nobody. */
  lemma BootedJournal(B: Base, spec: Scenario, package: map<string, string>, clock: int, h: Host)
    requires Booted(B, spec, package, clock, h)
    ensures h.journal == Messages(clock, spec.services)
  {
    hide Overlay, AllPlaced, Services.Table, Filed, Environment, HostName, UserTable, FirstPorts, FirstJournal, Messages, ZoneTable;
    var outline := Outline(spec, clock, h.files);
    KeptZones(outline, spec.services);
    Logged(Services.Rebuild(outline.(openPorts := h.openPorts)), spec.services);
  }

  lemma {:induction false} Logged(h: Host, services: seq<Service>)
    ensures FirstJournal(h, services).journal == h.journal + Messages(h.clock, services)
    decreases |services|
  {
    hide Services.JournalAll;
    if services != [] {
      var next := Services.JournalAll(h, "", services[0].name, services[0].onFailure);
      OneUnit(h, services[0].name, services[0].onFailure);
      Logged(next, services[1..]);
    } else {
      assert h.journal + [] == h.journal;
    }
  }

  lemma OneUnit(h: Host, unit: string, items: seq<JournalSpec>)
    ensures Services.JournalAll(h, "", unit, items).journal == h.journal + MessagesOf(h.clock, unit, items)
  {
    hide Services.JournalAll;
    var after := Services.JournalAll(h, "", unit, items).journal;
    var said := MessagesOf(h.clock, unit, items);
    forall i: nat | i < |items| ensures after[|h.journal|..][i] == said[i] { Services.FailureLogged(h, "", unit, items, i); }
    assert after[|h.journal|..] == said;
    if items == [] { NoMessages(h, unit, items); } else { Services.FailureLogged(h, "", unit, items, 0); }
    assert after == after[..|h.journal|] + after[|h.journal|..];
  }

  lemma NoMessages(h: Host, unit: string, items: seq<JournalSpec>)
    requires items == []
    ensures Services.JournalAll(h, "", unit, items) == h
  {}
}
