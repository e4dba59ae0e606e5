/** What a rule's condition says of the host: the laws of `all`, `any` and `not`, and the single
    tests after the operations that they are about. */
module Conditions {
  import opened Text
  import opened Host
  import opened Options
  import opened Paths
  import opened FileTree
  import FileMeaning
  import Interpreter
  import Services
  import M = Machine
  import opened Rules

  // ---- groups ----

  function All(cs: seq<Condition>): Condition {
    Condition("", "", "", "", "", "", "", "", "", "", 0, [], cs, [], Nothing)
  }

  function Any(cs: seq<Condition>): Condition {
    Condition("", "", "", "", "", "", "", "", "", "", 0, [], [], cs, Nothing)
  }

  function Not(c: Condition): Condition {
    Condition("", "", "", "", "", "", "", "", "", "", 0, [], [], [], Just(c))
  }

  /** `all` holds if every child does, `any` if one does, `not` if its child does not. */
  lemma GroupsExact(E: Engine, h: Host, cs: seq<Condition>, c: Condition)
    requires Canonical(h.cwd)
    ensures cs != [] ==> (Evaluate(E, h, All(cs)) <==> forall d | d in cs :: Evaluate(E, h, d))
    ensures cs != [] ==> (Evaluate(E, h, Any(cs)) <==> exists d | d in cs :: Evaluate(E, h, d))
    ensures Evaluate(E, h, Not(c)) <==> !Evaluate(E, h, c)
  {
    hide Leaf;
  }

  /** One more child: a false one makes `all` false, a true one makes `any` true, and the
      other kind changes nothing; a group of one child is its child. */
  lemma OneMoreChild(E: Engine, h: Host, cs: seq<Condition>, d: Condition)
    requires Canonical(h.cwd)
    ensures Evaluate(E, h, All([d])) == Evaluate(E, h, d) == Evaluate(E, h, Any([d]))
    ensures !Evaluate(E, h, d) ==> !Evaluate(E, h, All(cs + [d]))
    ensures Evaluate(E, h, d) ==> Evaluate(E, h, Any(cs + [d]))
    ensures cs != [] && Evaluate(E, h, d) ==> Evaluate(E, h, All(cs + [d])) == Evaluate(E, h, All(cs))
    ensures cs != [] && !Evaluate(E, h, d) ==> Evaluate(E, h, Any(cs + [d])) == Evaluate(E, h, Any(cs))
  {
    hide Leaf, Evaluate, All, Any;
    assert d in cs + [d] && d in [d] && forall e :: e in cs + [d] <==> e in cs || e == d;
    GroupsExact(E, h, [d], d);
    GroupsExact(E, h, cs + [d], d);
    GroupsExact(E, h, cs, d);
  }

  function Negations(cs: seq<Condition>): seq<Condition> { seq(|cs|, i requires 0 <= i < |cs| => Not(cs[i])) }

  /** De Morgan's laws, and double negation. */
  lemma NegationLaws(E: Engine, h: Host, cs: seq<Condition>, c: Condition)
    requires Canonical(h.cwd) && cs != []
    ensures Evaluate(E, h, Any(cs)) == Evaluate(E, h, Not(All(Negations(cs))))
    ensures Evaluate(E, h, All(cs)) == Evaluate(E, h, Not(Any(Negations(cs))))
    ensures Evaluate(E, h, Not(Not(c))) == Evaluate(E, h, c)
  {
    hide Leaf, Evaluate, All, Any, Not;
    var ns := Negations(cs);
    GroupsExact(E, h, cs, c);
    GroupsExact(E, h, ns, All(ns));
    GroupsExact(E, h, ns, Any(ns));
    GroupsExact(E, h, ns, Not(c));
    forall d | d in cs ensures Not(d) in ns && Evaluate(E, h, Not(d)) == !Evaluate(E, h, d) {
      var i: nat :| i < |cs| && cs[i] == d;
      assert ns[i] == Not(d);
      GroupsExact(E, h, cs, d);
    }
    forall n | n in ns ensures exists d :: d in cs && n == Not(d) {
      var i: nat :| i < |ns| && ns[i] == n;
      assert cs[i] in cs;
    }
  }

  /** `all` goes before `any`, `any` before `not`, and `not` before the test itself. */
  lemma Precedence(E: Engine, h: Host, c: Condition)
    requires Canonical(h.cwd)
    ensures c.all != [] ==> Evaluate(E, h, c) == Evaluate(E, h, All(c.all))
    ensures c.all == [] && c.any != [] ==> Evaluate(E, h, c) == Evaluate(E, h, Any(c.any))
    ensures c.all == [] && c.any == [] && c.negated.Just? ==> Evaluate(E, h, c) == Evaluate(E, h, Not(c.negated.value))
    ensures c.all == [] && c.any == [] && c.negated.Nothing? ==> Evaluate(E, h, c) == Leaf(E, h, c)
  {
    hide Leaf;
  }

  // ---- single tests, after the operations ----

  /** A condition that is one test. */
  predicate Single(c: Condition) { c.all == [] && c.any == [] && c.negated == Nothing }

  lemma SingleIsLeaf(E: Engine, h: Host, c: Condition)
    requires Canonical(h.cwd) && Single(c)
    ensures Evaluate(E, h, c) == Leaf(E, h, c)
  {
    hide Leaf;
  }

  predicate Allows(h: Host, zone: string, service: string) {
    zone in h.zones && service in h.zones[zone].services && h.zones[zone].services[service]
  }

  lemma AllowedThen(h: Host, zone: string, service: string, user: string, z: string, s: string)
    ensures var (after, r) := M.AllowFirewall(h, zone, service, user);
            && (r.Done? <==> user == "root" && zone in h.zones)
            && Allows(after, z, s) == (Allows(h, z, s) || (r.Done? && z == zone && s == service))
  {
    var (after, r) := M.AllowFirewall(h, zone, service, user);
    if r.Done? { OneZone(h.zones, zone, service, after.zones); }
  }

  lemma OneZone(zones: map<string, Zone>, zone: string, service: string, after: map<string, Zone>)
    requires zone in zones
    requires after == zones[zone := zones[zone].(services := zones[zone].services[service := true])]
    ensures forall z | z != zone :: (z in after <==> z in zones) && (z in after ==> after[z] == zones[z])
    ensures zone in after && service in after[zone].services && after[zone].services[service]
    ensures forall s | s != service :: (s in after[zone].services <==> s in zones[zone].services)
              && (s in after[zone].services ==> after[zone].services[s] == zones[zone].services[s])
  {}

  predicate Runs(h: Host, name: string) { name in h.services && h.services[name].state == "running" }

  lemma SetState(h: Host, after: Host, name: string, state: string, n: string)
    requires name in h.services && after.services == h.services[name := h.services[name].(state := state)]
    ensures Runs(after, n) == if n == name then state == "running" else Runs(h, n)
  {}

  lemma Same(h: Host, after: Host, n: string)
    requires after.services == h.services
    ensures Runs(after, n) == Runs(h, n)
  {}

  lemma StartedThen(h: Host, name: string, user: string, n: string)
    ensures var (after, r) := Services.StartService(h, name, user);
            && (r.Done? && n == name ==> Runs(after, n)) && (n != name ==> Runs(after, n) == Runs(h, n))
  {
    hide Services.Startable, Services.AcceptStart, Services.RefuseStart, Services.Table, Services.RunningNames, Runs;
    var (after, r) := Services.StartService(h, name, user);
    if r.Done? {
      SetState(h, after, name, "running", n);
    } else if user == "root" && name in h.services {
      SetState(h, after, name, "failed", n);
    } else {
      Same(h, after, n);
    }
  }

  lemma StoppedThen(h: Host, name: string, user: string, n: string)
    ensures var (after, r) := Services.StopService(h, name, user);
            && (r.Done? && n == name ==> !Runs(after, n)) && (n != name ==> Runs(after, n) == Runs(h, n))
  {
    hide Services.Withdraw, Services.Table, Services.RunningNames, Runs;
    var (after, r) := Services.StopService(h, name, user);
    if r.Done? { SetState(h, after, name, "stopped", n); Differ(); } else { Same(h, after, n); }
  }

  lemma Differ()
    ensures "stopped" != "running"
  {
    assert "stopped"[0] == 's' && "running"[0] == 'r';
  }

  predicate Disabled(h: Host, name: string) { name in h.services && !h.services[name].enabled }

  lemma EnabledThen(h: Host, name: string, user: string, enabled: bool, n: string)
    ensures var (after, r) := Services.EnableService(h, name, user, enabled);
            && (r.Done? <==> user == "root" && name in h.services)
            && Disabled(after, n) == if r.Done? && n == name then !enabled else Disabled(h, n)
  {
    hide Disabled;
    var (after, r) := Services.EnableService(h, name, user, enabled);
    if r.Done? { SetEnabled(h, after, name, enabled, n); }
  }

  lemma SetEnabled(h: Host, after: Host, name: string, enabled: bool, n: string)
    requires name in h.services && after.services == h.services[name := h.services[name].(enabled := enabled)]
    ensures Disabled(after, n) == if n == name then !enabled else Disabled(h, n)
  {}

  lemma FirewallLeaf(E: Engine, h: Host, c: Condition)
    requires Canonical(h.cwd) && c.kind == "firewallServiceAllowed"
    ensures Leaf(E, h, c) <==> Allows(h, c.zone, c.service)
  {}

  lemma RunningLeaf(E: Engine, h: Host, c: Condition)
    requires Canonical(h.cwd) && c.kind == "serviceRunning"
    ensures Leaf(E, h, c) <==> Runs(h, c.name)
  {}

  lemma DisabledLeaf(E: Engine, h: Host, c: Condition)
    requires Canonical(h.cwd) && c.kind == "serviceDisabled"
    ensures Leaf(E, h, c) <==> Disabled(h, c.name)
  {}

  /** After an accepted `firewall-cmd --add-service` the test for it holds; and it holds of no
      other service or zone that it did not hold of before. */
  lemma FirewallTest(E: Engine, h: Host, zone: string, service: string, user: string, c: Condition)
    requires Canonical(h.cwd) && Single(c) && c.kind == "firewallServiceAllowed"
    ensures var (after, r) := M.AllowFirewall(h, zone, service, user);
            && (r.Done? <==> user == "root" && zone in h.zones)
            && (r.Done? && c.zone == zone && c.service == service ==> Evaluate(E, after, c))
            && (!r.Done? || c.zone != zone || c.service != service ==> Evaluate(E, after, c) == Evaluate(E, h, c))
  {
    hide Evaluate, Leaf, Canonical, M.AllowFirewall, Allows;
    AllowedThen(h, zone, service, user, c.zone, c.service);
    var after := M.AllowFirewall(h, zone, service, user).0;
    SingleIsLeaf(E, h, c);
    SingleIsLeaf(E, after, c);
    FirewallLeaf(E, h, c);
    FirewallLeaf(E, after, c);
  }

  /** After an accepted start the unit is running, after an accepted stop it is not, and no other
      unit's test changes. */
  lemma RunningTest(E: Engine, h: Host, name: string, user: string, c: Condition)
    requires Canonical(h.cwd) && Single(c) && c.kind == "serviceRunning"
    ensures var (started, r) := Services.StartService(h, name, user);
            Canonical(started.cwd) && (r.Done? && c.name == name ==> Evaluate(E, started, c))
            && (c.name != name ==> Evaluate(E, started, c) == Evaluate(E, h, c))
    ensures var (stopped, r) := Services.StopService(h, name, user);
            Canonical(stopped.cwd) && (r.Done? && c.name == name ==> !Evaluate(E, stopped, c))
            && (c.name != name ==> Evaluate(E, stopped, c) == Evaluate(E, h, c))
  {
    hide Evaluate, Leaf, Canonical, Services.StartService, Services.StopService, Runs;
    StartedThen(h, name, user, c.name);
    StoppedThen(h, name, user, c.name);
    var started, stopped := Services.StartService(h, name, user).0, Services.StopService(h, name, user).0;
    M.StartKeepsRest(h, name, user);
    M.StopKeepsRest(h, name, user);
    SingleIsLeaf(E, h, c);
    M.StartKeepsRest(h, name, user);
    M.StopKeepsRest(h, name, user);
    SingleIsLeaf(E, started, c);
    SingleIsLeaf(E, stopped, c);
    RunningLeaf(E, h, c);
    RunningLeaf(E, started, c);
    RunningLeaf(E, stopped, c);
  }

  /** A unit is disabled after an accepted disable, and not after an accepted enable. */
  lemma DisabledTest(E: Engine, h: Host, name: string, user: string, enabled: bool, c: Condition)
    requires Canonical(h.cwd) && Single(c) && c.kind == "serviceDisabled"
    ensures var (after, r) := Services.EnableService(h, name, user, enabled);
            && (r.Done? <==> user == "root" && name in h.services)
            && (r.Done? && c.name == name ==> Evaluate(E, after, c) == !enabled)
            && (!r.Done? || c.name != name ==> Evaluate(E, after, c) == Evaluate(E, h, c))
  {
    hide Evaluate, Leaf, Canonical, Services.EnableService, Disabled;
    EnabledThen(h, name, user, enabled, c.name);
    M.EnableKeepsRest(h, name, user, enabled);
    var after := Services.EnableService(h, name, user, enabled).0;
    SingleIsLeaf(E, h, c);
    SingleIsLeaf(E, after, c);
    DisabledLeaf(E, h, c);
    DisabledLeaf(E, after, c);
  }

  /** A path is absent after an accepted removal, and not after an accepted write. */
  lemma AbsentTest(E: Engine, h: Host, name: string, text: string, user: string, append: bool, c: Condition)
    requires TreeInv(h.files) && Canonical(h.cwd) && Single(c) && c.kind == "fileAbsent" && c.path == name && name != ""
    ensures var (removed, r) := Remove(h, name, user); r.Done? ==> Evaluate(E, removed, c)
    ensures var (written, r) := WriteFile(h, name, text, user, append); r.Done? ==> !Evaluate(E, written, c)
  {
    hide Evaluate, TreeInv, Canonical, WriteFile, Remove, NormalizePath, Under, FileMeaning.OnlyAncestorsAdded;
    var removed, written := Remove(h, name, user).0, WriteFile(h, name, text, user, append).0;
    SingleIsLeaf(E, removed, c);
    SingleIsLeaf(E, written, c);
    FileMeaning.RemoveMeaning(h, name, user);
    if WriteFile(h, name, text, user, append).1.Done? { FileMeaning.WriteMeaning(h, name, text, user, append); }
    SelfUnder(Normalized(h, name).path);
  }

  lemma SelfUnder(p: string)
    ensures Under(p, p)
  {}

  /** After an accepted write of a regular file the test finds exactly the parts of its text. */
  lemma ContainsTest(E: Engine, h: Host, name: string, text: string, user: string, c: Condition)
    requires Canonical(h.cwd) && Single(c) && c.kind == "fileContains" && c.path == name && name != ""
    requires Normalized(h, name).path in h.files ==> !h.files[Normalized(h, name).path].directory
    requires WriteFile(h, name, text, user, false).1.Done?
    ensures Evaluate(E, WriteFile(h, name, text, user, false).0, c) <==> exists i: nat | i <= |text| :: At(text, c.pattern, i)
  {
    hide Evaluate, Canonical, WriteFile, NormalizePath, FileMeaning.OnlyAncestorsAdded, At;
    var written := WriteFile(h, name, text, user, false).0;
    SingleIsLeaf(E, written, c);
    FileMeaning.WriteMeaning(h, name, text, user, false);
  }

  /** The two tests of files, on any host: one finds what root can read there, the other holds of a path
      that no entry has. */
  lemma FileTests(E: Engine, h: Host, c: Condition)
    requires Canonical(h.cwd) && Single(c)
    ensures c.kind == "fileContains" ==>
              (Evaluate(E, h, c) <==>
                 match Interpreter.ReadFile(h, c.path, "root") case Refused(_) => false case Content(text) => Contains(text, c.pattern))
    ensures c.kind == "fileAbsent" ==> (Evaluate(E, h, c) <==> c.path == "" || Normalized(h, c.path).path !in h.files)
  {
    hide Evaluate, Canonical, NormalizePath, Contains;
    SingleIsLeaf(E, h, c);
  }

  const KINDS := ["serviceRunning", "firewallServiceAllowed", "selinuxMode", "selinuxModeIn", "serviceDisabled",
                  "fileContains", "fileAbsent", "userInGroup", "httpStatus"]

  /** The tests that no modelled operation changes read the host as it is. */
  lemma OtherTests(E: Engine, h: Host, c: Condition)
    requires Canonical(h.cwd) && Single(c)
    ensures c.kind == "selinuxMode" ==> (Evaluate(E, h, c) <==> h.selinux == c.value)
    ensures c.kind == "selinuxModeIn" ==> (Evaluate(E, h, c) <==> exists v | v in c.values :: h.selinux == v)
    ensures c.kind == "userInGroup" ==> (Evaluate(E, h, c) <==> c.user in h.users && c.group in h.users[c.user].groups)
    ensures c.kind !in KINDS ==> !Evaluate(E, h, c)
  {
    hide Evaluate;
    SingleIsLeaf(E, h, c);
  }

  /** A new user is in the group of its name, and in no other. */
  lemma GroupTest(E: Engine, R: M.Identity, h: Host, name: string, actor: string, c: Condition)
    requires Canonical(h.cwd) && Single(c) && c.kind == "userInGroup" && c.user == name
    ensures var (after, r) := M.AddUser(R, h, name, actor);
            Canonical(after.cwd) && (r.Done? ==> (Evaluate(E, after, c) <==> c.group == name))
  {
    hide Evaluate, M.SyncIdentity, M.HomeFiles, M.NextUid;
    var after := M.AddUser(R, h, name, actor).0;
    SingleIsLeaf(E, after, c);
  }

  // ---- what a rule does ----

  /** A rule that fires carries out its effects in their order, one that does not changes
      nothing; and rules that come later see what earlier ones have done. */
  lemma RuleExact(E: Engine, h: Host, rule: Rule)
    requires Canonical(h.cwd)
    ensures ApplyRules(E, h, [rule]) == if Evaluate(E, h, rule.when) then (ApplyEffects(h, rule.effects), Mutations(rule.effects)) else (h, [])
  {
    hide Evaluate, ApplyEffects, Mutations, Canonical;
    assert [rule] == [rule] + [];
    RuleRound(E, h, rule, []);
    assert Mutations(rule.effects) + [] == Mutations(rule.effects);
  }

  lemma {:induction false} RulesBoth(E: Engine, h: Host, a: seq<Rule>, b: seq<Rule>)
    requires Canonical(h.cwd)
    ensures var (mid, said) := ApplyRules(E, h, a);
            var (end, more) := ApplyRules(E, mid, b);
            ApplyRules(E, h, a + b) == (end, said + more)
    decreases |a|
  {
    hide Evaluate, ApplyEffects, Mutations, Canonical;
    if a == [] {
      assert a + b == b;
      assert [] + ApplyRules(E, h, b).1 == ApplyRules(E, h, b).1;
    } else {
      assert a + b == [a[0]] + (a[1..] + b) && a == [a[0]] + a[1..];
      RuleRound(E, h, a[0], a[1..] + b);
      RuleRound(E, h, a[0], a[1..]);
      if Evaluate(E, h, a[0].when) {
        var after := ApplyEffects(h, a[0].effects);
        RulesBoth(E, after, a[1..], b);
        Regroup(Mutations(a[0].effects), ApplyRules(E, after, a[1..]).1, ApplyRules(E, ApplyRules(E, after, a[1..]).0, b).1);
      } else {
        RulesBoth(E, h, a[1..], b);
      }
    }
  }

  lemma {:induction false} EffectsBoth(h: Host, a: seq<Effect>, b: seq<Effect>)
    ensures ApplyEffects(h, a + b) == ApplyEffects(ApplyEffects(h, a), b)
    ensures Mutations(a + b) == Mutations(a) + Mutations(b)
    decreases |a|
  {
    hide ApplyEffect, Mutation;
    if a == [] {
      assert a + b == b;
    } else {
      assert (a + b)[0] == a[0] && (a + b)[1..] == a[1..] + b;
      EffectsBoth(ApplyEffect(h, a[0]), a[1..], b);
      Regroup(Mutation(a[0]), Mutations(a[1..]), Mutations(b));
    }
  }

  /** `setPort` writes the port under its protocol, and of tcp without it too; it is open if the state is
      "open", and no other key changes. */
  lemma PortExact(h: Host, address: string, port: int, protocol: string, state: string, key: string)
    ensures var after := ApplyEffect(h, SetPort(address, port, protocol, state));
            var written := key == address + ":" + Itoa(port) + "/" + protocol || (protocol == "tcp" && key == address + ":" + Itoa(port));
            && after.http == h.http
            && (written ==> key in after.openPorts && after.openPorts[key] == (state == "open"))
            && (!written ==> (key in after.openPorts <==> key in h.openPorts) && (key in h.openPorts ==> after.openPorts[key] == h.openPorts[key]))
  {
    hide Itoa;
  }

  /** What is reported of an effect: the port with its protocol and state, or the page. */
  lemma ReportExact(address: string, port: int, protocol: string, state: string, url: string, status: int, body: string)
    ensures Mutations([SetPort(address, port, protocol, state)]) == ["port:" + address + ":" + Itoa(port) + "/" + protocol + "=" + state]
    ensures Mutations([SetHttp(url, status, body)]) == ["http:" + url] && Mutations([UnknownEffect]) == []
    ensures port >= 0 ==> Itoa(port) == Digits(port)
    ensures port < 0 ==> Itoa(port) == "-" + Digits(-port)
  {
    var e, f := SetPort(address, port, protocol, state), SetHttp(url, status, body);
    assert [e][1..] == [] && [f][1..] == [] && [UnknownEffect][1..] == [];
  }

  /** After `setHttpResponse` a request for the page gets that response, and so does no other page
      that did not. */
  lemma PublishedPage(E: Engine, h: Host, url: string, status: int, body: string, other: string)
    requires E.parse(url).Url?
    ensures var after := ApplyEffect(h, SetHttp(url, status, body));
            && HttpGet(E, after, url) == Just(HTTPResponse(status, body))
            && (other != url ==> HttpGet(E, after, other) == HttpGet(E, h, other))
  {}

  /** The test of a page asks for its URL, or for its value where it has none: once the page is published the
      test holds of the published status alone, of no status where nothing answers, and of 404 and 503
      alone where a port has to answer. */
  lemma StatusTest(E: Engine, h: Host, url: string, status: int, body: string, c: Condition)
    requires Canonical(h.cwd) && Single(c) && c.kind == "httpStatus" && url == (if c.url == "" then c.value else c.url)
    ensures E.parse(url).Url? ==> (Evaluate(E, ApplyEffect(h, SetHttp(url, status, body)), c) <==> c.status == status)
    ensures E.parse(url).NotHttp? || (url !in h.http && E.parse(url).host !in h.dns) ==> !Evaluate(E, h, c)
    ensures url !in h.http && Evaluate(E, h, c) ==> c.status == 404 || c.status == 503
  {
    hide Evaluate, Canonical;
    SingleIsLeaf(E, h, c);
    SingleIsLeaf(E, ApplyEffect(h, SetHttp(url, status, body)), c);
  }

  /** After `setPort` of a tcp port a request for a host at that address and port, without a page, is
      answered with 404 if the state is "open", and with 503 if it is anything else. */
  lemma OpenedPort(E: Engine, h: Host, address: string, port: nat, state: string, url: string)
    requires E.parse(url).Url? && url !in h.http && E.parse(url).port == Itoa(port)
    requires E.parse(url).host in h.dns && h.dns[E.parse(url).host] == address
    ensures HttpGet(E, ApplyEffect(h, SetPort(address, port, "tcp", state)), url)
         == Just(if state == "open" then HTTPResponse(404, "Not Found\n") else HTTPResponse(503, "Service Unavailable\n"))
  {
    hide Itoa;
    var key := address + ":" + Itoa(port);
    PortWritten(address, port, state);
    KeysDiffer(key);
  }

  lemma PortWritten(address: string, port: nat, state: string)
    ensures var w := PortWrite(SetPort(address, port, "tcp", state));
            var key := address + ":" + Itoa(port); key in w && w[key] == (state == "open")
  {
    hide Itoa;
  }

  lemma KeysDiffer(key: string)
    ensures key + "/tcp" != key
  {
    assert |key + "/tcp"| == |key| + 4;
  }

  // ---- numbers ----

  predicate AllDigits(t: string) { forall i | 0 <= i < |t| :: '0' <= t[i] <= '9' }

  /** The number that a decimal text stands for. */
  function ReadDecimal(t: string): int
    requires AllDigits(t)
  {
    if t == "" then 0
    else
      var last := t[|t| - 1];
      10 * ReadDecimal(t[..|t| - 1]) + (last as int - '0' as int)
  }

  lemma DigitValue(n: nat)
    requires n < 10
    ensures var c := "0123456789"[n]; '0' <= c <= '9' && c as int - '0' as int == n
  {}

  /** Digits writes the decimal digits of the number, and no more of them than it needs. */
  lemma {:induction false} DigitsRead(n: nat)
    ensures AllDigits(Digits(n))
    ensures ReadDecimal(Digits(n)) == n
    ensures n > 0 ==> Digits(n)[0] != '0'
  {
    if n < 10 {
      DigitValue(n);
      assert Digits(n)[..0] == "";
    } else {
      var front, last := Digits(n / 10), "0123456789"[n % 10];
      DigitsRead(n / 10);
      DigitValue(n % 10);
      assert Digits(n) == front + [last];
      assert Digits(n)[..|front|] == front;
    }
  }
}
