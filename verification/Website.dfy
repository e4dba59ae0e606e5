/** From the firewall to the browser: what curl gets from a web server of the machine. */
module Website {
  import opened Host
  import opened Options
  import opened Services
  import M = Machine
  import Paths
  import Rules

  /** Allowing http in a zone lets the web server publish its ports. */
  lemma AllowedThen(h: Host, zone: string)
    requires zone in h.zones
    ensures var (after, r) := M.AllowFirewall(h, zone, "http", "root");
            r == Done && WebAllowed(after.zones) && after == h.(zones := after.zones)
  {
    var after := M.AllowFirewall(h, zone, "http", "root").0;
    assert "http" in after.zones[zone].services && after.zones[zone].services["http"];
  }

  /** A URL without a page of its own, whose host resolves to this address on port 80. */
  ghost predicate Resolves(E: Rules.Engine, h: Host, raw: string, address: string) {
    && raw !in h.http
    && E.parse(raw).Url? && E.parse(raw).port == "80"
    && E.parse(raw).host in h.dns && h.dns[E.parse(raw).host] == Paths.Split(address)[0]
  }

  lemma Reached(E: Rules.Engine, h: Host, raw: string, address: string)
    requires Resolves(E, h, raw, address)
    ensures Rules.HttpGet(E, h, raw)
         == Just(if WebPort(address) in h.openPorts && h.openPorts[WebPort(address)] then HTTPResponse(404, "Not Found\n")
                       else HTTPResponse(503, "Service Unavailable\n"))
  {
    hide Paths.Split;
    assert ":" + "80" == ":80";
    assert Paths.Split(address)[0] + ":" + "80" == Paths.Split(address)[0] + ":80";
  }

  /** Once http is allowed somewhere, a web server that may start answers on every address
      of the machine; stopped again, it does not. */
  lemma ServedWhileRunning(E: Rules.Engine, h: Host, zone: string, name: string, raw: string, address: string)
    requires zone in h.zones && name in h.services && IsWeb(name) && address in h.addresses
    requires Resolves(E, h, raw, address)
    requires Startable(M.AllowFirewall(h, zone, "http", "root").0, name)
    ensures var allowed := M.AllowFirewall(h, zone, "http", "root").0;
            var (started, r) := StartService(allowed, name, "root");
            var stopped := StopService(started, name, "root").0;
            && r == Done
            && Rules.HttpGet(E, started, raw) == Just(HTTPResponse(404, "Not Found\n"))
            && Rules.HttpGet(E, stopped, raw) == Just(HTTPResponse(503, "Service Unavailable\n"))
  {
    hide StartService, StopService, Startable, WebAllowed, WebPort, Rules.HttpGet, M.AllowFirewall, IsWeb;
    AllowedThen(h, zone);
    var allowed := M.AllowFirewall(h, zone, "http", "root").0;
    var started := StartService(allowed, name, "root").0;
    var stopped := StopService(started, name, "root").0;
    StartMeaning(allowed, name);
    OpenedFor(allowed, started.openPorts, address);
    M.StartKeepsRest(allowed, name, "root");
    M.StopKeepsRest(started, name, "root");
    Reached(E, started, raw, address);
    StopUndoesStart(allowed, name, address);
    Reached(E, stopped, raw, address);
  }

  lemma OpenedFor(h: Host, ports: map<string, bool>, address: string)
    requires PortsOpened(h, ports, true) && address in h.addresses
    ensures WebPort(address) in ports && ports[WebPort(address)]
  {
    hide WebPort;
    assert OpensAt(h.addresses, WebPort(address));
  }

  /** Where no zone allows http, starting a web server opens nothing. */
  lemma NotServedUnlessAllowed(h: Host, name: string)
    requires name in h.services && !WebAllowed(h.zones)
    ensures StartService(h, name, "root").0.openPorts == h.openPorts
  {
    hide StartService, Startable, WebAllowed, IsWeb, OpensAt;
    if Startable(h, name) {
      StartMeaning(h, name);
      SameLookups(h.openPorts, StartService(h, name, "root").0.openPorts);
    } else {
      RefusalMeaning(h, name);
    }
  }

  lemma SameLookups(a: map<string, bool>, b: map<string, bool>)
    requires forall k :: k in b <==> k in a
    requires forall k | k in b :: b[k] == a[k]
    ensures a == b
  {}
}
