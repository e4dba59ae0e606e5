/** internal/rules/engine.go: nested conditions over the host, and effects that
    publish ports and HTTP responses. */
module Rules {
  import opened Text
  import opened Host
  import opened Paths
  import opened Options
  import FileTree
  import Services

  /** scenario.ConditionGroup. */
  datatype Condition = Condition(kind: string, name: string, user: string, group: string, path: string,
                                 pattern: string, zone: string, service: string, value: string, url: string,
                                 status: int, values: seq<string>,
                                 all: seq<Condition>, any: seq<Condition>, negated: Option<Condition>)

  datatype Effect =
    | SetPort(address: string, port: int, protocol: string, state: string)
    | SetHttp(url: string, status: int, body: string)
    | UnknownEffect

  datatype Rule = Rule(when: Condition, effects: seq<Effect>)

  /** What url.Parse makes of a string: nothing usable, or an http URL's host and port. */
  datatype Url = NotHttp | Url(host: string, port: string)

  datatype Engine = Engine(parse: string -> Url, rules: seq<Rule>)

  // ---- conditions ----

  function HttpGet(E: Engine, h: Host, raw: string): Option<HTTPResponse> {
    match E.parse(raw)
    case NotHttp => Nothing
    case Url(host, port) =>
      if raw in h.http then Just(h.http[raw])
      else if host !in h.dns then Nothing
      else
        var key := h.dns[host] + ":" + port;
        if key in h.openPorts && h.openPorts[key] then Just(HTTPResponse(404, "Not Found\n"))
        else Just(HTTPResponse(503, "Service Unavailable\n"))
  }

  /** ReadFile as root. */
  function RootRead(h: Host, name: string): Option<string>
    requires Canonical(h.cwd)
  {
    var n := FileTree.Normalized(h, name);
    if n.Ok? && n.path in h.files && !h.files[n.path].directory then Just(h.files[n.path].content) else Nothing
  }

  predicate Leaf(E: Engine, h: Host, c: Condition)
    requires Canonical(h.cwd)
  {
    if c.kind == "serviceRunning" then Services.IsRunning(h.services, c.name)
    else if c.kind == "firewallServiceAllowed" then
      c.zone in h.zones && c.service in h.zones[c.zone].services && h.zones[c.zone].services[c.service]
    else if c.kind == "selinuxMode" then h.selinux == c.value
    else if c.kind == "selinuxModeIn" then h.selinux in c.values
    else if c.kind == "serviceDisabled" then c.name in h.services && !h.services[c.name].enabled
    else if c.kind == "fileContains" then
      var r := RootRead(h, c.path); r.Just? && Contains(r.value, c.pattern)
    else if c.kind == "fileAbsent" then
      var n := FileTree.Normalized(h, c.path); !(n.Ok? && n.path in h.files)
    else if c.kind == "userInGroup" then c.user in h.users && c.group in h.users[c.user].groups
    else if c.kind == "httpStatus" then
      var r := HttpGet(E, h, if c.url == "" then c.value else c.url); r.Just? && r.value.status == c.status
    else false
  }

  predicate Evaluate(E: Engine, h: Host, c: Condition)
    requires Canonical(h.cwd)
    decreases c
  {
    if |c.all| > 0 then forall d | d in c.all :: Evaluate(E, h, d)
    else if |c.any| > 0 then exists d | d in c.any :: Evaluate(E, h, d)
    else if c.negated.Just? then !Evaluate(E, h, c.negated.value)
    else Leaf(E, h, c)
  }

  // ---- effects ----

  function Digits(n: nat): string {
    if n < 10 then ["0123456789"[n]] else Digits(n / 10) + ["0123456789"[n % 10]]
  }

  /** strconv.Itoa. */
  function Itoa(n: int): string { if n < 0 then "-" + Digits(-n) else Digits(n) }

  function PortKey(e: Effect): string
    requires e.SetPort?
  {
    e.address + ":" + Itoa(e.port) + "/" + e.protocol
  }

  /** The port-table entries an effect writes. */
  function PortWrite(e: Effect): map<string, bool> {
    if !e.SetPort? then map[]
    else
      var open := e.state == "open";
      var full := map[PortKey(e) := open];
      if e.protocol == "tcp" then full[e.address + ":" + Itoa(e.port) := open] else full
  }

  function HttpWrite(e: Effect): map<string, HTTPResponse> {
    if e.SetHttp? then map[e.url := HTTPResponse(e.status, e.body)] else map[]
  }

  function ApplyEffect(h: Host, e: Effect): (r: Host)
    ensures r == h.(openPorts := r.openPorts, http := r.http)
  {
    h.(openPorts := h.openPorts + PortWrite(e), http := h.http + HttpWrite(e))
  }

  function Mutation(e: Effect): seq<string> {
    match e
    case SetPort(address, port, protocol, state) =>
      ["port:" + address + ":" + Itoa(port) + "/" + protocol + "=" + state]
    case SetHttp(url, _, _) => ["http:" + url]
    case UnknownEffect => []
  }

  function ApplyEffects(h: Host, es: seq<Effect>): (r: Host)
    ensures r == h.(openPorts := r.openPorts, http := r.http)
    decreases |es|
  {
    if es == [] then h else ApplyEffects(ApplyEffect(h, es[0]), es[1..])
  }

  function Mutations(es: seq<Effect>): seq<string> {
    if es == [] then [] else Mutation(es[0]) + Mutations(es[1..])
  }

  /** Engine.Apply, rule by rule: each condition sees the effects of the rules before it. */
  function ApplyRules(E: Engine, h: Host, rules: seq<Rule>): (r: (Host, seq<string>))
    requires Canonical(h.cwd)
    ensures r.0 == h.(openPorts := r.0.openPorts, http := r.0.http)
    decreases |rules|
  {
    if rules == [] then (h, [])
    else if Evaluate(E, h, rules[0].when) then
      var (after, mutations) := ApplyRules(E, ApplyEffects(h, rules[0].effects), rules[1..]);
      (after, Mutations(rules[0].effects) + mutations)
    else ApplyRules(E, h, rules[1..])
  }

  lemma RuleRound(E: Engine, h: Host, rule: Rule, rest: seq<Rule>)
    requires Canonical(h.cwd)
    ensures ApplyRules(E, h, [rule] + rest)
         == if Evaluate(E, h, rule.when) then
              var (after, mutations) := ApplyRules(E, ApplyEffects(h, rule.effects), rest);
              (after, Mutations(rule.effects) + mutations)
            else ApplyRules(E, h, rest)
  {
    assert ([rule] + rest)[1..] == rest;
  }

  lemma Regroup(a: seq<string>, b: seq<string>, c: seq<string>)
    ensures a + (b + c) == a + b + c
  {}

  method Apply(E: Engine, host: Host) returns (after: Host, mutations: seq<string>)
    requires Canonical(host.cwd)
    ensures (after, mutations) == ApplyRules(E, host, E.rules)
  {
    after, mutations := host, [];
    for i := 0 to |E.rules|
      invariant Canonical(after.cwd)
      invariant ApplyRules(E, after, E.rules[i..]).0 == ApplyRules(E, host, E.rules).0
      invariant mutations + ApplyRules(E, after, E.rules[i..]).1 == ApplyRules(E, host, E.rules).1
    {
      hide Evaluate, ApplyRules, ApplyEffects, Mutations, Canonical;
      var rule := E.rules[i];
      RuleRound(E, after, rule, E.rules[i + 1..]);
      assert E.rules[i..] == [rule] + E.rules[i + 1..];
      if Evaluate(E, after, rule.when) {
        var changed, said := RunEffects(after, rule.effects);
        Regroup(mutations, said, ApplyRules(E, changed, E.rules[i + 1..]).1);
        after, mutations := changed, mutations + said;
      }
    }
    assert E.rules[|E.rules|..] == [] && ApplyRules(E, after, []) == (after, []);
    assert mutations + [] == mutations;
  }

  /** The inner loop of Apply, over one rule's effects. */
  method RunEffects(host: Host, effects: seq<Effect>) returns (after: Host, said: seq<string>)
    ensures after == ApplyEffects(host, effects) && said == Mutations(effects)
  {
    after, said := host, [];
    for j := 0 to |effects|
      invariant ApplyEffects(after, effects[j..]) == ApplyEffects(host, effects)
      invariant said + Mutations(effects[j..]) == Mutations(effects)
    {
      var e := effects[j];
      assert effects[j..][0] == e && effects[j..][1..] == effects[j + 1..];
      assert said + (Mutation(e) + Mutations(effects[j + 1..])) == said + Mutation(e) + Mutations(effects[j + 1..]);
      after := ApplyEffect(after, e);
      said := said + Mutation(e);
    }
    assert effects[|effects|..] == [];
  }

  // ---- conditions that read nothing of what is written ----

  /** Neither the page nor the port that this URL leads to is among these. */
  predicate Apart(E: Engine, dns: map<string, string>, raw: string, urls: set<string>, ports: set<string>) {
    match E.parse(raw)
    case NotHttp => true
    case Url(host, port) => raw !in urls && (host in dns ==> dns[host] + ":" + port !in ports)
  }

  /** No httpStatus test at any depth, used or not, asks for one of these pages or ports. */
  ghost predicate ReadsNone(E: Engine, dns: map<string, string>, c: Condition, urls: set<string>, ports: set<string>)
    decreases c
  {
    && (c.kind == "httpStatus" ==> Apart(E, dns, if c.url == "" then c.value else c.url, urls, ports))
    && (forall d | d in c.all :: ReadsNone(E, dns, d, urls, ports)) && (forall d | d in c.any :: ReadsNone(E, dns, d, urls, ports))
    && (c.negated.Just? ==> ReadsNone(E, dns, c.negated.value, urls, ports))
  }

  /** There is no httpStatus test at all. */
  ghost predicate NoHttp(c: Condition)
    decreases c
  {
    && c.kind != "httpStatus"
    && (forall d | d in c.all :: NoHttp(d)) && (forall d | d in c.any :: NoHttp(d))
    && (c.negated.Just? ==> NoHttp(c.negated.value))
  }

  lemma {:induction false} NoHttpReadsNone(E: Engine, dns: map<string, string>, c: Condition, urls: set<string>, ports: set<string>)
    requires NoHttp(c)
    ensures ReadsNone(E, dns, c, urls, ports)
    decreases c
  {
    forall d | d in c.all ensures ReadsNone(E, dns, d, urls, ports) { NoHttpReadsNone(E, dns, d, urls, ports); }
    forall d | d in c.any ensures ReadsNone(E, dns, d, urls, ports) { NoHttpReadsNone(E, dns, d, urls, ports); }
    if c.negated.Just? { NoHttpReadsNone(E, dns, c.negated.value, urls, ports); }
  }

  ghost predicate SameButPublished(h: Host, g: Host) { h == g.(openPorts := h.openPorts, http := h.http) }

  ghost predicate SameOutside<V(!new)>(a: map<string, V>, b: map<string, V>, keys: set<string>) {
    forall k | k !in keys :: (k in a <==> k in b) && (k in a ==> a[k] == b[k])
  }

  /** The hosts differ at most in these pages and ports. */
  ghost predicate SameApartFrom(h: Host, g: Host, urls: set<string>, ports: set<string>) {
    SameButPublished(h, g) && SameOutside(h.http, g.http, urls) && SameOutside(h.openPorts, g.openPorts, ports)
  }

  lemma LeafStable(E: Engine, h: Host, g: Host, c: Condition, urls: set<string>, ports: set<string>)
    requires Canonical(h.cwd) && SameApartFrom(h, g, urls, ports)
    requires c.kind == "httpStatus" ==> Apart(E, h.dns, if c.url == "" then c.value else c.url, urls, ports)
    ensures Leaf(E, h, c) == Leaf(E, g, c)
  {
    hide Canonical;
  }

  lemma {:induction false} EvaluateStable(E: Engine, h: Host, g: Host, c: Condition, urls: set<string>, ports: set<string>)
    requires Canonical(h.cwd) && SameApartFrom(h, g, urls, ports) && ReadsNone(E, h.dns, c, urls, ports)
    ensures Evaluate(E, h, c) == Evaluate(E, g, c)
    decreases c
  {
    hide Canonical, Leaf, SameOutside, Apart;
    forall d | d in c.all ensures Evaluate(E, h, d) == Evaluate(E, g, d) { EvaluateStable(E, h, g, d, urls, ports); }
    forall d | d in c.any ensures Evaluate(E, h, d) == Evaluate(E, g, d) { EvaluateStable(E, h, g, d, urls, ports); }
    if c.negated.Just? { EvaluateStable(E, h, g, c.negated.value, urls, ports); }
    LeafStable(E, h, g, c, urls, ports);
  }

  // ---- the effects that fire ----

  function Firing(E: Engine, h: Host, rules: seq<Rule>): seq<Effect>
    requires Canonical(h.cwd)
  {
    if rules == [] then []
    else (if Evaluate(E, h, rules[0].when) then rules[0].effects else []) + Firing(E, h, rules[1..])
  }

  lemma {:induction false} FiringStable(E: Engine, h: Host, g: Host, rules: seq<Rule>, urls: set<string>, ports: set<string>)
    requires Canonical(h.cwd) && SameApartFrom(h, g, urls, ports) && forall r | r in rules :: ReadsNone(E, h.dns, r.when, urls, ports)
    ensures Firing(E, h, rules) == Firing(E, g, rules)
  {
    hide Canonical, Evaluate, SameOutside, ReadsNone;
    if rules != [] {
      assert rules[0] in rules;
      EvaluateStable(E, h, g, rules[0].when, urls, ports);
      FiringStable(E, h, g, rules[1..], urls, ports);
    }
  }

  // ---- what rules write ----

  ghost predicate WritesWithin(es: seq<Effect>, urls: set<string>, ports: set<string>) {
    forall e | e in es :: HttpWrite(e).Keys <= urls && PortWrite(e).Keys <= ports
  }

  lemma {:induction false} EffectsOutside(h: Host, es: seq<Effect>, urls: set<string>, ports: set<string>)
    requires WritesWithin(es, urls, ports)
    ensures SameApartFrom(h, ApplyEffects(h, es), urls, ports)
    decreases |es|
  {
    hide HttpWrite, PortWrite;
    if es != [] {
      assert es[0] in es;
      EffectsOutside(ApplyEffect(h, es[0]), es[1..], urls, ports);
    }
  }

  /** The URLs and port keys that some effect of the rules writes. */
  function WrittenUrls(rules: seq<Rule>): set<string> { set r, e, u | r in rules && e in r.effects && u in HttpWrite(e) :: u }

  function WrittenPorts(rules: seq<Rule>): set<string> { set r, e, k | r in rules && e in r.effects && k in PortWrite(e) :: k }

  /** No condition reads a page or a port that an effect writes. */
  ghost predicate Independent(E: Engine, dns: map<string, string>, rules: seq<Rule>) {
    forall r | r in rules :: ReadsNone(E, dns, r.when, WrittenUrls(rules), WrittenPorts(rules))
  }

  lemma WrittenWithin(rules: seq<Rule>)
    ensures forall r | r in rules :: WritesWithin(r.effects, WrittenUrls(rules), WrittenPorts(rules))
  {
    hide HttpWrite, PortWrite;
    forall r, e | r in rules && e in r.effects
      ensures HttpWrite(e).Keys <= WrittenUrls(rules) && PortWrite(e).Keys <= WrittenPorts(rules)
    {}
  }

  /** Rules without any httpStatus test are independent of each other. */
  lemma NoHttpIndependent(E: Engine, dns: map<string, string>, rules: seq<Rule>)
    requires forall r | r in rules :: NoHttp(r.when)
    ensures Independent(E, dns, rules)
  {
    hide WrittenUrls, WrittenPorts;
    forall r | r in rules ensures ReadsNone(E, dns, r.when, WrittenUrls(rules), WrittenPorts(rules)) {
      NoHttpReadsNone(E, dns, r.when, WrittenUrls(rules), WrittenPorts(rules));
    }
  }

  lemma {:induction false} EffectsConcat(h: Host, a: seq<Effect>, b: seq<Effect>)
    ensures ApplyEffects(h, a + b) == ApplyEffects(ApplyEffects(h, a), b)
    decreases |a|
  {
    if a == [] {
      assert a + b == b;
    } else {
      assert (a + b)[0] == a[0] && (a + b)[1..] == a[1..] + b;
      EffectsConcat(ApplyEffect(h, a[0]), a[1..], b);
    }
  }

  /** The effects of the first rule, if it fires. */
  function Fired(E: Engine, h: Host, rule: Rule): seq<Effect>
    requires Canonical(h.cwd)
  {
    if Evaluate(E, h, rule.when) then rule.effects else []
  }

  lemma FirstFires(E: Engine, h: Host, rules: seq<Rule>)
    requires Canonical(h.cwd) && rules != []
    ensures ApplyRules(E, h, rules).0 == ApplyRules(E, ApplyEffects(h, Fired(E, h, rules[0])), rules[1..]).0
    ensures Firing(E, h, rules) == Fired(E, h, rules[0]) + Firing(E, h, rules[1..])
  {
    hide Canonical, Evaluate, ApplyEffect;
  }

  lemma {:induction false} FiringDecides(E: Engine, h: Host, rules: seq<Rule>, urls: set<string>, ports: set<string>)
    requires Canonical(h.cwd) && forall r | r in rules :: ReadsNone(E, h.dns, r.when, urls, ports) && WritesWithin(r.effects, urls, ports)
    ensures ApplyRules(E, h, rules).0 == ApplyEffects(h, Firing(E, h, rules))
    decreases |rules|
  {
    hide Canonical, Evaluate, ReadsNone, WritesWithin, ApplyRules, Firing, SameOutside;
    if rules != [] {
      assert rules[0] in rules;
      var fired := Fired(E, h, rules[0]);
      var next := ApplyEffects(h, fired);
      FirstFires(E, h, rules);
      NoWrites(urls, ports);
      EffectsOutside(h, fired, urls, ports);
      FiringDecides(E, next, rules[1..], urls, ports);
      FiringStable(E, h, next, rules[1..], urls, ports);
      EffectsConcat(h, fired, Firing(E, h, rules[1..]));
    } else {
      NoRules(E, h, rules);
    }
  }

  lemma NoRules(E: Engine, h: Host, rules: seq<Rule>)
    requires Canonical(h.cwd) && rules == []
    ensures ApplyRules(E, h, rules).0 == h && Firing(E, h, rules) == []
  {}

  lemma NoWrites(urls: set<string>, ports: set<string>)
    ensures WritesWithin([], urls, ports)
  {}

  lemma {:induction false} FiringWrites(E: Engine, h: Host, rules: seq<Rule>, urls: set<string>, ports: set<string>)
    requires Canonical(h.cwd) && forall r | r in rules :: WritesWithin(r.effects, urls, ports)
    ensures WritesWithin(Firing(E, h, rules), urls, ports)
  {
    hide Canonical, Evaluate, HttpWrite, PortWrite;
    if rules != [] {
      assert rules[0] in rules;
      FiringWrites(E, h, rules[1..], urls, ports);
    }
  }

  /** The rules that fire are decided by the host as it was, if no condition reads what is written. */
  lemma RulesAreTheirEffects(E: Engine, h: Host, rules: seq<Rule>)
    requires Canonical(h.cwd) && Independent(E, h.dns, rules)
    ensures ApplyRules(E, h, rules).0 == ApplyEffects(h, Firing(E, h, rules))
    ensures Firing(E, ApplyEffects(h, Firing(E, h, rules)), rules) == Firing(E, h, rules)
  {
    hide Canonical, Evaluate, ReadsNone, WritesWithin, WrittenUrls, WrittenPorts;
    var urls, ports := WrittenUrls(rules), WrittenPorts(rules);
    WrittenWithin(rules);
    FiringDecides(E, h, rules, urls, ports);
    FiringWrites(E, h, rules, urls, ports);
    EffectsOutside(h, Firing(E, h, rules), urls, ports);
    FiringStable(E, h, ApplyEffects(h, Firing(E, h, rules)), rules, urls, ports);
  }

  // ---- last writer ----

  function PortWrites(es: seq<Effect>): map<string, bool> {
    if es == [] then map[] else PortWrite(es[0]) + PortWrites(es[1..])
  }

  function HttpWrites(es: seq<Effect>): map<string, HTTPResponse> {
    if es == [] then map[] else HttpWrite(es[0]) + HttpWrites(es[1..])
  }

  /** A host with more entries written over its ports and pages. */
  function Written(h: Host, ports: map<string, bool>, pages: map<string, HTTPResponse>): Host {
    h.(openPorts := h.openPorts + ports, http := h.http + pages)
  }

  lemma MapPlus<V>(a: map<string, V>, b: map<string, V>, c: map<string, V>)
    ensures a + b + c == a + (b + c) && a + map[] == a && a + b + b == a + b
  {}

  lemma WrittenTwice(h: Host, p: map<string, bool>, u: map<string, HTTPResponse>, q: map<string, bool>, v: map<string, HTTPResponse>)
    ensures Written(Written(h, p, u), q, v) == Written(h, p + q, u + v)
    ensures Written(h, map[], map[]) == h
    ensures Written(Written(h, p, u), p, u) == Written(h, p, u)
  {
    MapPlus(h.openPorts, p, q);
    MapPlus(h.http, u, v);
    MapPlus(h.openPorts, p, p);
    MapPlus(h.http, u, u);
  }

  lemma {:induction false} EffectsAreWrites(h: Host, es: seq<Effect>)
    ensures ApplyEffects(h, es) == Written(h, PortWrites(es), HttpWrites(es))
    decreases |es|
  {
    if es == [] {
      WrittenTwice(h, map[], map[], map[], map[]);
    } else {
      EffectsAreWrites(ApplyEffect(h, es[0]), es[1..]);
      WrittenTwice(h, PortWrite(es[0]), HttpWrite(es[0]), PortWrites(es[1..]), HttpWrites(es[1..]));
    }
  }

  /** `i` is the last effect that writes this port key. */
  ghost predicate LastPort(es: seq<Effect>, key: string, i: nat) {
    i < |es| && key in PortWrite(es[i]) && forall j | i < j < |es| :: key !in PortWrite(es[j])
  }

  ghost predicate LastHttp(es: seq<Effect>, url: string, i: nat) {
    i < |es| && url in HttpWrite(es[i]) && forall j | i < j < |es| :: url !in HttpWrite(es[j])
  }

  lemma {:induction false} LastPortWins(es: seq<Effect>, key: string, i: nat)
    requires LastPort(es, key, i)
    ensures key in PortWrites(es) && PortWrites(es)[key] == PortWrite(es[i])[key]
  {
    if i == 0 {
      NoPortWrite(es[1..], key);
    } else {
      LastPortWins(es[1..], key, i - 1);
    }
  }

  lemma {:induction false} NoPortWrite(es: seq<Effect>, key: string)
    requires forall j | 0 <= j < |es| :: key !in PortWrite(es[j])
    ensures key !in PortWrites(es)
  {
    if es != [] { NoPortWrite(es[1..], key); }
  }

  lemma {:induction false} LastHttpWins(es: seq<Effect>, url: string, i: nat)
    requires LastHttp(es, url, i)
    ensures url in HttpWrites(es) && HttpWrites(es)[url] == HttpWrite(es[i])[url]
  {
    if i == 0 {
      NoHttpWrite(es[1..], url);
    } else {
      LastHttpWins(es[1..], url, i - 1);
    }
  }

  lemma {:induction false} NoHttpWrite(es: seq<Effect>, url: string)
    requires forall j | 0 <= j < |es| :: url !in HttpWrite(es[j])
    ensures url !in HttpWrites(es)
  {
    if es != [] { NoHttpWrite(es[1..], url); }
  }

  /** If no condition reads a page or port that an effect writes: every key holds what the last
      firing effect wrote, keys nobody writes keep their value, nothing else changes, and
      applying the rules again changes nothing. */
  lemma RulesFixpoint(E: Engine, h: Host)
    requires Canonical(h.cwd) && Independent(E, h.dns, E.rules)
    ensures var after := ApplyRules(E, h, E.rules).0; var es := Firing(E, h, E.rules);
            && after == h.(openPorts := after.openPorts, http := after.http)
            && (forall key, i: nat | LastPort(es, key, i) ::
                  key in after.openPorts && after.openPorts[key] == PortWrite(es[i])[key])
            && (forall url, i: nat | LastHttp(es, url, i) ::
                  url in after.http && after.http[url] == HttpWrite(es[i])[url])
            && (forall key | key in h.openPorts && (forall e | e in es :: key !in PortWrite(e)) ::
                  key in after.openPorts && after.openPorts[key] == h.openPorts[key])
            && (forall url | url in h.http && (forall e | e in es :: url !in HttpWrite(e)) ::
                  url in after.http && after.http[url] == h.http[url])
            && ApplyRules(E, after, E.rules).0 == after
  {
    var after := ApplyRules(E, h, E.rules).0;
    var es := Firing(E, h, E.rules);
    RulesAreTheirEffects(E, h, E.rules);
    EffectsAreWrites(h, es);
    forall key, i: nat | LastPort(es, key, i)
      ensures key in after.openPorts && after.openPorts[key] == PortWrite(es[i])[key]
    {
      LastPortWins(es, key, i);
    }
    forall url, i: nat | LastHttp(es, url, i)
      ensures url in after.http && after.http[url] == HttpWrite(es[i])[url]
    {
      LastHttpWins(es, url, i);
    }
    forall key | key in h.openPorts && (forall e | e in es :: key !in PortWrite(e))
      ensures key in after.openPorts && after.openPorts[key] == h.openPorts[key]
    {
      NoPortWrite(es, key);
    }
    forall url | url in h.http && (forall e | e in es :: url !in HttpWrite(e))
      ensures url in after.http && after.http[url] == h.http[url]
    {
      NoHttpWrite(es, url);
    }
    RulesAreTheirEffects(E, after, E.rules);
    EffectsAreWrites(after, es);
    WrittenTwice(h, PortWrites(es), HttpWrites(es), PortWrites(es), HttpWrites(es));
  }

  // ---- with httpStatus there need be no fixpoint ----

  function Status(url: string, status: int): Condition {
    Condition("httpStatus", "", "", "", "", "", "", "", "", url, status, [], [], [], Nothing)
  }

  /** "When the page answers 200, make it answer 500; when it is unavailable, make it answer 200." */
  function Restless(parse: string -> Url, url: string): Engine {
    Engine(parse, [Rule(Status(url, 200), [SetHttp(url, 500, "")]), Rule(Status(url, 503), [SetHttp(url, 200, "")])])
  }

  /** The URL's host is known, nothing is published there and its port is closed. */
  predicate Unserved(parse: string -> Url, h: Host, url: string) {
    && url != "" && parse(url).Url? && url !in h.http && parse(url).host in h.dns
    && var key := h.dns[parse(url).host] + ":" + parse(url).port; !(key in h.openPorts && h.openPorts[key])
  }

  predicate Answers(E: Engine, h: Host, url: string, status: int) {
    HttpGet(E, h, url).Just? && HttpGet(E, h, url).value.status == status
  }

  lemma StatusHolds(E: Engine, h: Host, url: string, status: int)
    requires Canonical(h.cwd) && url != ""
    ensures Evaluate(E, h, Status(url, status)) <==> Answers(E, h, url, status)
  {}

  /** One rule of this kind either publishes the page or passes. */
  lemma OneRule(E: Engine, h: Host, url: string, from: int, to: int, rest: seq<Rule>)
    requires Canonical(h.cwd) && url != ""
    ensures ApplyRules(E, h, [Rule(Status(url, from), [SetHttp(url, to, "")])] + rest).0
         == ApplyRules(E, if Answers(E, h, url, from) then h.(http := h.http[url := HTTPResponse(to, "")]) else h, rest).0
  {
    hide HttpGet;
    var rule := Rule(Status(url, from), [SetHttp(url, to, "")]);
    assert ([rule] + rest)[1..] == rest;
    StatusHolds(E, h, url, from);
    OneEffect(h, url, to);
  }

  lemma BothRules(parse: string -> Url, h: Host, url: string)
    requires Canonical(h.cwd) && url != "" && parse(url).Url?
    ensures var E := Restless(parse, url);
            var after := ApplyRules(E, h, E.rules).0;
            && (Answers(E, h, url, 200) ==> after == h.(http := h.http[url := HTTPResponse(500, "")]))
            && (Answers(E, h, url, 503) ==> after == h.(http := h.http[url := HTTPResponse(200, "")]))
  {
    hide Evaluate;
    var E := Restless(parse, url);
    var b := [Rule(Status(url, 503), [SetHttp(url, 200, "")])];
    assert E.rules == [Rule(Status(url, 200), [SetHttp(url, 500, "")])] + b && b == b + [];
    OneRule(E, h, url, 200, 500, b);
    var mid := if Answers(E, h, url, 200) then h.(http := h.http[url := HTTPResponse(500, "")]) else h;
    OneRule(E, mid, url, 503, 200, []);
  }

  /** On a machine as it is before its web unit runs, the second application of these rules
      changes what the first left. */
  lemma HttpRulesKeepMoving(parse: string -> Url, h: Host, url: string)
    requires Canonical(h.cwd) && Unserved(parse, h, url)
    ensures var E := Restless(parse, url);
            var once := ApplyRules(E, h, E.rules).0;
            && once == h.(http := h.http[url := HTTPResponse(200, "")])
            && ApplyRules(E, once, E.rules).0 == h.(http := h.http[url := HTTPResponse(500, "")])
  {
    hide Evaluate, ApplyRules;
    var E := Restless(parse, url);
    assert Answers(E, h, url, 503);
    BothRules(parse, h, url);
    var once := h.(http := h.http[url := HTTPResponse(200, "")]);
    assert Answers(E, once, url, 200);
    BothRules(parse, once, url);
    assert once.http[url := HTTPResponse(500, "")] == h.http[url := HTTPResponse(500, "")];
  }

  lemma OneEffect(h: Host, url: string, status: int)
    ensures ApplyEffects(h, [SetHttp(url, status, "")]) == h.(http := h.http[url := HTTPResponse(status, "")])
  {
    var e := SetHttp(url, status, "");
    assert [e][1..] == [];
    MapPlus(h.openPorts, map[], map[]);
    assert HttpWrite(e) == map[url := HTTPResponse(status, "")];
    assert h.http + HttpWrite(e) == h.http[url := HTTPResponse(status, "")];
    assert ApplyEffects(h, [e]) == ApplyEffect(h, e);
  }
}
