/** The request limiter of internal/server/server.go (allowRequest): fixed
    one-minute windows in a table that is purged and bounded. */
module RateLimiter {

  /** Nanoseconds. */
  const MINUTE: int := 60_000_000_000
  const PURGE_ABOVE := 1024
  const CAPACITY := 4096
  const AUTH_LIMIT := 20
  const GENERAL_LIMIT := 120
  const AUTH_PREFIX := "/api/v1/auth/"

  datatype Window = Window(started: int, count: nat)
  type Table = map<string, Window>

  datatype Request = Request(remote: string, path: string, now: int)

  /** strings.LastIndexByte(s, ':'). */
  function LastColon(s: string): (i: int)
    ensures -1 <= i < |s|
  {
    if s == "" then -1 else if s[|s| - 1] == ':' then |s| - 1 else LastColon(s[..|s| - 1])
  }

  function HostPart(remote: string): string {
    if LastColon(remote) > 0 then remote[..LastColon(remote)] else remote
  }

  predicate IsAuth(r: Request) { AUTH_PREFIX <= r.path }

  function KeyOf(r: Request): string { HostPart(r.remote) + (if IsAuth(r) then "|auth" else "|general") }

  function LimitOf(r: Request): nat { if IsAuth(r) then AUTH_LIMIT else GENERAL_LIMIT }

  /** A key is used under one limit only. */
  lemma KeyFixesLimit(a: Request, b: Request)
    requires KeyOf(a) == KeyOf(b)
    ensures LimitOf(a) == LimitOf(b)
  {
    var k, l := KeyOf(a), KeyOf(b);
    assert k[|k| - 1] == if IsAuth(a) then 'h' else 'l';
    assert l[|l| - 1] == if IsAuth(b) then 'h' else 'l';
  }

  // ---- whose requests are counted together ----

  /** Requests come from `host:port`; an address without a port is the host. */
  lemma {:induction false} HostExact(host: string, port: string)
    requires host != "" && ':' !in port
    ensures HostPart(host + ":" + port) == host
    ensures HostPart(port) == port && HostPart(":" + port) == ":" + port
  {
    ColonAt(host, port);
    ColonAt("", port);
    NoColon(port);
    assert "" + ":" + port == ":" + port;
  }

  lemma {:induction false} NoColon(s: string)
    requires ':' !in s
    ensures LastColon(s) == -1
  {
    if s != "" {
      assert s[|s| - 1] in s;
      NoColon(s[..|s| - 1]);
    }
  }

  lemma {:induction false} ColonAt(host: string, port: string)
    requires ':' !in port
    ensures LastColon(host + ":" + port) == |host|
    decreases |port|
  {
    var s := host + ":" + port;
    if port == "" {
      assert s[|s| - 1] == ':';
    } else {
      assert s[|s| - 1] == port[|port| - 1] && port[|port| - 1] in port;
      assert s[..|s| - 1] == host + ":" + port[..|port| - 1];
      ColonAt(host, port[..|port| - 1]);
    }
  }

  /** Two requests are counted together exactly when they come from one host, and are both for
      signing in or both not. */
  lemma KeyExact(a: Request, b: Request)
    ensures KeyOf(a) == KeyOf(b) <==> HostPart(a.remote) == HostPart(b.remote) && IsAuth(a) == IsAuth(b)
  {
    hide HostPart, AUTH_PREFIX;
    var k, l := KeyOf(a), KeyOf(b);
    if k == l {
      KeyFixesLimit(a, b);
      var n := if IsAuth(a) then |k| - 5 else |k| - 8;
      assert HostPart(a.remote) == k[..n];
      assert IsAuth(a) == IsAuth(b) ==> HostPart(b.remote) == l[..n];
    }
  }

  // ---- one request ----

  predicate Live(w: Window, now: int) { now - w.started < MINUTE }

  function Purged(t: Table, now: int): Table { map k | k in t && Live(t[k], now) :: t[k] }

  function Trimmed(t: Table, now: int): Table { if |t| > PURGE_ABOVE then Purged(t, now) else t }

  /** The capacity test refuses this request outright. */
  predicate Full(t: Table, r: Request) {
    KeyOf(r) !in Trimmed(t, r.now) && |Trimmed(t, r.now)| >= CAPACITY
  }

  /** The window a counted request falls into, itself included. */
  function Counted(t: Table, r: Request): Window {
    var k := KeyOf(r);
    if k in t && Live(t[k], r.now) then Window(t[k].started, t[k].count + 1) else Window(r.now, 1)
  }

  function Step(t: Table, r: Request): (Table, bool) {
    var u := Trimmed(t, r.now);
    if Full(t, r) then (u, false)
    else (u[KeyOf(r) := Counted(u, r)], Counted(u, r).count <= LimitOf(r))
  }

  class Limiter {
    var rate: Table

    constructor ()
      ensures rate == map[]
    {
      rate := map[];
    }

    method AllowRequest(r: Request) returns (ok: bool)
      modifies this
      ensures (rate, ok) == Step(old(rate), r)
      ensures |old(rate)| <= CAPACITY ==> |rate| <= CAPACITY
    {
      if |rate| <= CAPACITY { StepBounded(rate, r); }
      var key := KeyOf(r);
      if |rate| > PURGE_ABOVE {
        var todo := rate.Keys;
        while todo != {}
          invariant todo <= old(rate).Keys
          invariant rate == map k | k in old(rate) && (k in todo || Live(old(rate)[k], r.now)) :: old(rate)[k]
          decreases todo
        {
          var candidate :| candidate in todo;
          if !Live(rate[candidate], r.now) { rate := rate - {candidate}; }
          todo := todo - {candidate};
        }
      }
      assert rate == Trimmed(old(rate), r.now);
      if key !in rate && |rate| >= CAPACITY { return false; }
      var window := if key in rate && Live(rate[key], r.now) then rate[key] else Window(r.now, 0);
      window := window.(count := window.count + 1);
      rate := rate[key := window];
      return window.count <= LimitOf(r);
    }
  }

  /** A request is turned away for want of room exactly if its key is new, the table is full, and no
      window in it is a minute old. */
  lemma FullExact(t: Table, r: Request)
    requires |t| <= 4096
    ensures Full(t, r) <==> KeyOf(r) !in t && |t| == 4096 && forall k | k in t :: r.now - t[k].started < 60_000_000_000
  {
    hide KeyOf;
    var u := Trimmed(t, r.now);
    TrimmedKeys(t, r.now);
    FewerKeys(u, t);
    if k :| k in t && !Live(t[k], r.now) {
      if |t| > 1024 {
        FewerKeys(u, t - {k});
        assert t.Keys == (t - {k}).Keys + {k};
      }
    } else {
      assert Purged(t, r.now) == t;
    }
  }

  /** Otherwise it gets through exactly if it is within the limit of the window it falls into; it starts
      a window if there is none or the one there is a minute old. */
  lemma AnswerExact(t: Table, r: Request)
    requires !Full(t, r)
    ensures var k, limit := KeyOf(r), if "/api/v1/auth/" <= r.path then 20 else 120;
            && (Step(t, r).1 <==> (k in t && r.now - t[k].started < 60_000_000_000 ==> t[k].count < limit))
            && k in Step(t, r).0
            && Step(t, r).0[k] == if k in t && r.now - t[k].started < 60_000_000_000 then Window(t[k].started, t[k].count + 1)
                                  else Window(r.now, 1)
  {
    hide KeyOf;
  }

  lemma StepBounded(t: Table, r: Request)
    requires |t| <= CAPACITY
    ensures |Step(t, r).0| <= CAPACITY
  {
    hide KeyOf, LimitOf, Live, Counted, Purged;
    var u := Trimmed(t, r.now);
    TrimmedKeys(t, r.now);
    FewerKeys(u, t);
    Inserted(u, KeyOf(r), Counted(u, r));
  }

  lemma TrimmedKeys(t: Table, now: int)
    ensures Trimmed(t, now).Keys <= t.Keys
  {}

  lemma Inserted(t: Table, k: string, w: Window)
    ensures |t[k := w]| == |t| + if k in t then 0 else 1
  {
    assert t[k := w].Keys == t.Keys + {k};
  }

  lemma {:induction false} FewerKeys(u: Table, t: Table)
    requires u.Keys <= t.Keys
    ensures |u| <= |t|
  {
    assert t.Keys == u.Keys + (t.Keys - u.Keys);
    assert |t.Keys| == |u.Keys| + |t.Keys - u.Keys|;
  }

  // ---- runs ----

  predicate InOrder(rs: seq<Request>, from: int) {
    forall i | 0 <= i < |rs| :: from <= rs[i].now && (i > 0 ==> rs[i - 1].now <= rs[i].now)
  }

  function RunTable(t: Table, rs: seq<Request>): Table
    decreases |rs|
  {
    if rs == [] then t else RunTable(Step(t, rs[0]).0, rs[1..])
  }

  function Answers(t: Table, rs: seq<Request>): seq<bool>
    decreases |rs|
  {
    if rs == [] then [] else [Step(t, rs[0]).1] + Answers(Step(t, rs[0]).0, rs[1..])
  }

  /** The table never exceeds its capacity. */
  lemma {:induction false} TableBounded(t: Table, rs: seq<Request>)
    requires |t| <= CAPACITY
    ensures |RunTable(t, rs)| <= CAPACITY
    decreases |rs|
  {
    if rs != [] {
      StepBounded(t, rs[0]);
      TableBounded(Step(t, rs[0]).0, rs[1..]);
    }
  }

  // ---- the limiter without bound or purging ----

  function PlainStep(t: Table, r: Request): (Table, bool) {
    (t[KeyOf(r) := Counted(t, r)], Counted(t, r).count <= LimitOf(r))
  }

  function PlainAnswers(t: Table, rs: seq<Request>): seq<bool>
    decreases |rs|
  {
    if rs == [] then [] else [PlainStep(t, rs[0]).1] + PlainAnswers(PlainStep(t, rs[0]).0, rs[1..])
  }

  predicate NeverFull(t: Table, rs: seq<Request>)
    decreases |rs|
  {
    rs == [] || (!Full(t, rs[0]) && NeverFull(Step(t, rs[0]).0, rs[1..]))
  }

  /** The tables agree, except for windows that are over by `now`. */
  ghost predicate Agree(t: Table, plain: Table, now: int) {
    && (forall k | k in t :: k in plain && plain[k] == t[k])
    && (forall k | k in plain && k !in t :: !Live(plain[k], now))
  }

  /** Purging is invisible: while the capacity test does not fire, the answers
      are those of an unbounded limiter that never forgets. */
  lemma {:induction false} RefinesPlain(t: Table, plain: Table, rs: seq<Request>, from: int)
    requires Agree(t, plain, from) && InOrder(rs, from) && NeverFull(t, rs)
    ensures Answers(t, rs) == PlainAnswers(plain, rs)
    decreases |rs|
  {
    if rs != [] {
      var r := rs[0];
      assert Counted(Trimmed(t, r.now), r) == Counted(plain, r);
      assert Agree(Step(t, r).0, PlainStep(plain, r).0, r.now);
      assert InOrder(rs[1..], r.now) by {
        forall i | 0 <= i < |rs[1..]| ensures r.now <= rs[1..][i].now { Later(rs, from, i + 1); }
      }
      RefinesPlain(Step(t, r).0, PlainStep(plain, r).0, rs[1..], r.now);
    }
  }

  lemma {:induction false} Later(rs: seq<Request>, from: int, i: nat)
    requires InOrder(rs, from) && i < |rs|
    ensures rs[0].now <= rs[i].now
    decreases i
  {
    if i > 0 { Later(rs, from, i - 1); }
  }

  // ---- how many requests get through ----

  predicate Within(now: int, start: int) { start <= now < start + MINUTE }

  /** Accepted requests under `key` in the minute from `start` on. */
  function Accepted(t: Table, rs: seq<Request>, key: string, start: int): nat
    decreases |rs|
  {
    if rs == [] then 0
    else
      var (u, ok) := Step(t, rs[0]);
      (if ok && KeyOf(rs[0]) == key && Within(rs[0].now, start) then 1 else 0) + Accepted(u, rs[1..], key, start)
  }

  datatype Last = Never | At(w: Window)

  function Min(a: nat, b: nat): nat { if a < b then a else b }

  /** `last` is the newest window ever opened for the key: the one in the table,
      or one that was over before it was purged. */
  ghost predicate Newest(t: Table, key: string, last: Last, now: int) {
    && (key in t ==> last == At(t[key]))
    && (last.At? ==> last.w.started <= now && (key !in t ==> !Live(last.w, now)))
  }

  /** What has been accepted in the minute so far, by where the newest window lies.
      A window opened before the minute spent one acceptance outside it. */
  ghost predicate Budget(last: Last, limit: nat, start: int, accepted: nat) {
    match last
    case Never => accepted == 0
    case At(w) =>
      && w.count >= 1
      && (w.started + MINUTE <= start ==> accepted == 0)
      && (w.started < start ==> accepted <= Min(w.count, limit) - 1)
      && (w.started == start ==> accepted <= Min(w.count, limit))
      && (start < w.started < start + MINUTE ==> accepted <= limit - 1 + Min(w.count, limit))
      && accepted <= 2 * limit - 1
  }

  function Update(t: Table, r: Request, key: string, last: Last): Last {
    if KeyOf(r) == key && !Full(t, r) then At(Counted(Trimmed(t, r.now), r)) else last
  }

  lemma StepNewest(t: Table, r: Request, key: string, last: Last, from: int)
    requires Newest(t, key, last, from) && from <= r.now
    ensures Newest(Step(t, r).0, key, Update(t, r, key, last), r.now)
  {}

  lemma StepBudget(t: Table, r: Request, key: string, last: Last, from: int, start: int, accepted: nat)
    requires Newest(t, key, last, from) && from <= r.now
    requires Budget(last, LimitOf(r), start, accepted) && KeyOf(r) == key
    ensures var more := if Step(t, r).1 && Within(r.now, start) then 1 else 0;
            Budget(Update(t, r, key, last), LimitOf(r), start, accepted + more)
  {}

  lemma {:induction false} AcceptedBound(t: Table, rs: seq<Request>, key: string, last: Last, from: int,
                                         limit: nat, start: int, accepted: nat)
    requires Newest(t, key, last, from) && InOrder(rs, from)
    requires forall r | r in rs && KeyOf(r) == key :: LimitOf(r) == limit
    requires Budget(last, limit, start, accepted) && limit >= 1
    ensures accepted + Accepted(t, rs, key, start) <= 2 * limit - 1
    decreases |rs|
  {
    if rs != [] {
      var r := rs[0];
      assert r in rs;
      StepNewest(t, r, key, last, from);
      if KeyOf(r) == key { StepBudget(t, r, key, last, from, start, accepted); }
      assert InOrder(rs[1..], r.now) by {
        forall i | 0 <= i < |rs[1..]| ensures r.now <= rs[1..][i].now { Later(rs, from, i + 1); }
      }
      var more := if Step(t, r).1 && KeyOf(r) == key && Within(r.now, start) then 1 else 0;
      AcceptedBound(Step(t, r).0, rs[1..], key, Update(t, r, key, last), r.now, limit, start, accepted + more);
    }
  }

  /** On a clock that does not run backwards, every client stays below twice its
      limit in any sixty seconds. */
  lemma BelowTwiceTheLimit(rs: seq<Request>, from: int, some: Request, start: int)
    requires InOrder(rs, from)
    ensures Accepted(map[], rs, KeyOf(some), start) < 2 * LimitOf(some)
  {
    forall r | r in rs && KeyOf(r) == KeyOf(some) ensures LimitOf(r) == LimitOf(some) { KeyFixesLimit(r, some); }
    AcceptedBound(map[], rs, KeyOf(some), Never, from, LimitOf(some), start, 0);
  }

  // ---- the bound is reached ----

  function Burst(r: Request, n: nat): seq<Request> { seq(n, _ => r) }

  function Holding(key: string, started: int, count: nat): Table { map[key := Window(started, count)] }

  lemma FirstStep(r: Request)
    ensures Step(map[], r) == (Holding(KeyOf(r), r.now, 1), true)
  {}

  lemma NextStep(r: Request, started: int, count: nat)
    ensures Step(Holding(KeyOf(r), started, count), r)
         == if r.now - started < MINUTE then (Holding(KeyOf(r), started, count + 1), count + 1 <= LimitOf(r))
            else (Holding(KeyOf(r), r.now, 1), true)
  {
    var k := KeyOf(r);
    var t := Holding(k, started, count);
    assert t.Keys == {k} && |t| == |t.Keys|;
    assert Trimmed(t, r.now) == t && !Full(t, r);
    assert t[k := Counted(t, r)] == Holding(k, Counted(t, r).started, Counted(t, r).count);
  }

  lemma AcceptedFirst(t: Table, r: Request, rest: seq<Request>, start: int)
    requires Step(t, r).1 && Within(r.now, start)
    ensures Accepted(t, [r] + rest, KeyOf(r), start) == 1 + Accepted(Step(t, r).0, rest, KeyOf(r), start)
  {
    assert ([r] + rest)[1..] == rest;
  }

  lemma BurstCons(r: Request, n: nat, rest: seq<Request>)
    requires n > 0
    ensures Burst(r, n) + rest == [r] + (Burst(r, n - 1) + rest)
  {}

  /** Requests at one instant are accepted until the window's count reaches the limit. */
  lemma {:induction false} BurstAccepted(r: Request, started: int, count: nat, n: nat, rest: seq<Request>, start: int)
    requires r.now - started < MINUTE && Within(r.now, start) && count + n <= LimitOf(r)
    ensures Accepted(Holding(KeyOf(r), started, count), Burst(r, n) + rest, KeyOf(r), start)
         == n + Accepted(Holding(KeyOf(r), started, count + n), rest, KeyOf(r), start)
    decreases n
  {
    hide Step, LimitOf, KeyOf;
    if n == 0 {
      assert Burst(r, 0) + rest == rest;
    } else {
      BurstCons(r, n, rest);
      NextStep(r, started, count);
      AcceptedFirst(Holding(KeyOf(r), started, count), r, Burst(r, n - 1) + rest, start);
      BurstAccepted(r, started, count + 1, n - 1, rest, start);
    }
  }

  /** One request just before the minute, a burst at its beginning and one at its end. */
  function Spike(r: Request, start: int): seq<Request> {
    [r.(now := start - 1)]
    + (Burst(r.(now := start), LimitOf(r) - 1) + Burst(r.(now := start + MINUTE - 1), LimitOf(r)))
  }

  lemma SpikeInOrder(r: Request, start: int)
    ensures InOrder(Spike(r, start), start - 1)
  {}

  /** No smaller bound holds: on a clock that does not run backwards a fixed window lets
      2 * limit - 1 requests through. */
  lemma BoundReached(r: Request, start: int)
    ensures InOrder(Spike(r, start), start - 1)
    ensures Accepted(map[], Spike(r, start), KeyOf(r), start) == 2 * LimitOf(r) - 1
  {
    SpikeInOrder(r, start);
    var l := LimitOf(r);
    var before, first := r.(now := start - 1), r.(now := start);
    var tail := Burst(r.(now := start + MINUTE - 1), l);
    var rs := Spike(r, start);
    assert rs[0] == before && rs[1..] == Burst(first, l - 1) + tail;
    FirstStep(before);
    BurstAccepted(first, start - 1, 1, l - 1, tail, start);
    SecondBurst(r.(now := start + MINUTE - 1), start);
  }

  lemma SecondBurst(last: Request, start: int)
    requires last.now == start + MINUTE - 1
    ensures var l := LimitOf(last);
            Accepted(Holding(KeyOf(last), start - 1, l), Burst(last, l), KeyOf(last), start) == l
  {
    var l := LimitOf(last);
    assert Burst(last, l) == Burst(last, l) + [];
    BurstCons(last, l, []);
    NextStep(last, start - 1, l);
    AcceptedFirst(Holding(KeyOf(last), start - 1, l), last, Burst(last, l - 1) + [], start);
    BurstAccepted(last, last.now, 1, l - 1, [], start);
  }
}
