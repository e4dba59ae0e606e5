/** Protocol steps of internal/server/server.go. Each section under the server's
    mutex, and each SQL transaction, is one atomic step; a run is any interleaving
    of such steps by any requests. */
module Server {
  import opened Store

  /** Non-positive limits are no limits. */
  datatype Limits = Limits(maxConcurrent: int, maxRestarts: int)

  /** Sessions by id with their team, and the restarts counted per session. */
  datatype State = State(sessions: map<string, string>, restarts: map<string, int>)

  const EMPTY := State(map[], map[])

  datatype Step =
    | Create(team: string, id: string, open: bool, boots: bool)   // event status, and whether a scenario starts
    | CountRestart(id: string)

  predicate HasSession(s: State, team: string) { exists id | id in s.sessions :: s.sessions[id] == team }

  predicate AtCapacity(L: Limits, s: State) { L.maxConcurrent > 0 && |s.sessions| >= L.maxConcurrent }

  predicate MayCreate(L: Limits, s: State, team: string, open: bool, boots: bool) {
    open && !HasSession(s, team) && !AtCapacity(L, s) && boots
  }

  function Restarts(s: State, id: string): int { if id in s.restarts then s.restarts[id] else 0 }

  predicate MayRestart(L: Limits, s: State, id: string) { !(L.maxRestarts > 0 && Restarts(s, id) >= L.maxRestarts) }

  function Next(L: Limits, s: State, step: Step): State {
    match step
    case Create(team, id, open, boots) =>
      if MayCreate(L, s, team, open, boots) then s.(sessions := s.sessions[id := team]) else s
    case CountRestart(id) =>
      if MayRestart(L, s, id) then s.(restarts := s.restarts[id := Restarts(s, id) + 1]) else s
  }

  class Registry {
    const limits: Limits
    var sessions: map<string, string>
    var restarts: map<string, int>

    ghost function View(): State reads this { State(sessions, restarts) }

    constructor (limits: Limits)
      ensures View() == EMPTY && this.limits == limits
    {
      this.limits, sessions, restarts := limits, map[], map[];
    }

    /** sessionForTeamLocked. */
    method SessionForTeam(team: string) returns (id: string, found: bool)
      ensures found <==> HasSession(View(), team)
      ensures found ==> id in sessions && sessions[id] == team
    {
      var todo := sessions.Keys;
      while todo != {}
        invariant todo <= sessions.Keys
        invariant forall i | i in sessions && i !in todo :: sessions[i] != team
        decreases todo
      {
        var i :| i in todo;
        if sessions[i] == team { return i, true; }
        todo := todo - {i};
      }
      return "", false;
    }

    /** createSession: an existing session is returned, a full server refuses. `saves` says
        whether the store takes the new session; the server keeps it when the store does not. */
    method CreateSession(team: string, id: string, open: bool, boots: bool, saves: bool) returns (answer: string, ok: bool)
      modifies this
      ensures View() == Next(limits, old(View()), Create(team, id, open, boots))
      ensures ok ==> answer in sessions && sessions[answer] == team
      ensures ok <==> open && (HasSession(old(View()), team) || (!AtCapacity(limits, old(View())) && boots && saves))
    {
      if !open { return "", false; }
      var existing, found := SessionForTeam(team);
      if found { return existing, true; }
      if limits.maxConcurrent > 0 && |sessions| >= limits.maxConcurrent { return "", false; }
      if !boots { return "", false; }
      sessions := sessions[id := team];
      if !saves { return "", false; }
      return id, true;
    }

    /** The locked section of the restart request. */
    method TakeRestart(id: string) returns (ok: bool)
      modifies this
      ensures View() == Next(limits, old(View()), CountRestart(id))
      ensures ok <==> MayRestart(limits, old(View()), id)
    {
      var count := if id in restarts then restarts[id] else 0;
      if limits.maxRestarts > 0 && count >= limits.maxRestarts { return false; }
      restarts := restarts[id := count + 1];
      ok := true;
    }
  }

  // ---- invariants of every run ----

  function Run(L: Limits, s: State, steps: seq<Step>): State
    decreases |steps|
  {
    if steps == [] then s else Run(L, Next(L, s, steps[0]), steps[1..])
  }

  ghost predicate OnePerTeam(s: State) {
    forall i, j | i in s.sessions && j in s.sessions && s.sessions[i] == s.sessions[j] :: i == j
  }

  ghost predicate Within(L: Limits, s: State) {
    && (L.maxConcurrent > 0 ==> |s.sessions| <= L.maxConcurrent)
    && (L.maxRestarts > 0 ==> forall id | id in s.restarts :: s.restarts[id] <= L.maxRestarts)
  }

  lemma CountAfter(m: map<string, string>, k: string, v: string)
    ensures |m[k := v]| <= |m| + 1
  {
    assert m[k := v].Keys == m.Keys + {k};
  }

  lemma StepKeeps(L: Limits, s: State, step: Step)
    requires OnePerTeam(s) && Within(L, s)
    ensures OnePerTeam(Next(L, s, step)) && Within(L, Next(L, s, step))
  {
    if step.Create? { CountAfter(s.sessions, step.id, step.team); }
  }

  /** Whatever the interleaving: one session per team, and neither limit exceeded. */
  lemma {:induction false} RunKeeps(L: Limits, s: State, steps: seq<Step>)
    requires OnePerTeam(s) && Within(L, s)
    ensures OnePerTeam(Run(L, s, steps)) && Within(L, Run(L, s, steps))
    decreases |steps|
  {
    if steps != [] {
      StepKeeps(L, s, steps[0]);
      RunKeeps(L, Next(L, s, steps[0]), steps[1..]);
    }
  }

  /** Restarts of one session that a run lets through. */
  function Granted(L: Limits, s: State, steps: seq<Step>, id: string): nat
    decreases |steps|
  {
    if steps == [] then 0
    else
      (if steps[0] == CountRestart(id) && MayRestart(L, s, id) then 1 else 0) + Granted(L, Next(L, s, steps[0]), steps[1..], id)
  }

  /** The counter counts: every restart let through, and nothing else, raises it. */
  lemma {:induction false} CounterCounts(L: Limits, s: State, steps: seq<Step>, id: string)
    ensures Restarts(Run(L, s, steps), id) == Restarts(s, id) + Granted(L, s, steps, id)
    decreases |steps|
  {
    if steps != [] { CounterCounts(L, Next(L, s, steps[0]), steps[1..], id); }
  }

  /** At most maxRestarts restarts of a session get through. */
  lemma RestartsBounded(L: Limits, steps: seq<Step>, id: string)
    requires L.maxRestarts > 0
    ensures Granted(L, EMPTY, steps, id) <= L.maxRestarts
  {
    RunKeeps(L, EMPTY, steps);
    CounterCounts(L, EMPTY, steps, id);
  }

  /** How often a restart of a session is asked for. */
  function Asked(steps: seq<Step>, id: string): nat {
    if steps == [] then 0 else (if steps[0] == CountRestart(id) then 1 else 0) + Asked(steps[1..], id)
  }

  /** The limit is reached before anything is refused: in every interleaving the first maxRestarts
      restarts of a session get through, and no later one; without a limit all of them do. */
  lemma {:induction false} RestartsExact(L: Limits, s: State, steps: seq<Step>, id: string)
    requires L.maxRestarts > 0 ==> Restarts(s, id) <= L.maxRestarts
    ensures Granted(L, s, steps, id) ==
              if L.maxRestarts > 0 && Asked(steps, id) > L.maxRestarts - Restarts(s, id) then L.maxRestarts - Restarts(s, id)
              else Asked(steps, id)
    decreases |steps|
  {
    if steps != [] { RestartsExact(L, Next(L, s, steps[0]), steps[1..], id); }
  }

  /** Requests for sessions of different new teams, with different new ids, while the event is open. */
  ghost predicate NewTeams(s: State, steps: seq<Step>) {
    && (forall i | 0 <= i < |steps| :: steps[i].Create? && steps[i].open && steps[i].boots
                                       && steps[i].id !in s.sessions && !HasSession(s, steps[i].team))
    && (forall i, j | 0 <= i < j < |steps| :: steps[i].id != steps[j].id && steps[i].team != steps[j].team)
  }

  lemma NewTeamsNext(L: Limits, s: State, steps: seq<Step>)
    requires NewTeams(s, steps) && steps != []
    ensures NewTeams(Next(L, s, steps[0]), steps[1..])
  {
    var t := Next(L, s, steps[0]);
    forall i | 0 <= i < |steps[1..]|
      ensures steps[1..][i].Create? && steps[1..][i].open && steps[1..][i].boots
      ensures steps[1..][i].id !in t.sessions && !HasSession(t, steps[1..][i].team)
    {
      assert steps[1..][i] == steps[i + 1];
    }
  }

  lemma NewEntry(m: map<string, string>, k: string, v: string)
    requires k !in m
    ensures |m[k := v]| == |m| + 1
  {
    assert m[k := v].Keys == m.Keys + {k};
  }

  /** Teams get sessions up to the limit, and none beyond it. */
  lemma {:induction false} SessionsExact(L: Limits, s: State, steps: seq<Step>)
    requires NewTeams(s, steps) && (L.maxConcurrent > 0 ==> |s.sessions| <= L.maxConcurrent)
    ensures |Run(L, s, steps).sessions| ==
              if L.maxConcurrent > 0 && |s.sessions| + |steps| > L.maxConcurrent then L.maxConcurrent else |s.sessions| + |steps|
    decreases |steps|
  {
    hide NewTeams, HasSession;
    if steps != [] {
      NewTeamsNext(L, s, steps);
      FirstTeam(L, s, steps);
      SessionsExact(L, Next(L, s, steps[0]), steps[1..]);
    }
  }

  lemma FirstTeam(L: Limits, s: State, steps: seq<Step>)
    requires NewTeams(s, steps) && steps != []
    ensures |Next(L, s, steps[0]).sessions| == |s.sessions| + if L.maxConcurrent > 0 && |s.sessions| >= L.maxConcurrent then 0 else 1
  {
    NewEntry(s.sessions, steps[0].id, steps[0].team);
  }

  /** A team that has a session keeps it: no step takes a session away or hands it to
      another team, as long as new ids are new. */
  lemma {:induction false} SessionsStay(L: Limits, s: State, steps: seq<Step>, id: string)
    requires id in s.sessions && forall step | step in steps && step.Create? :: step.id != id
    ensures id in Run(L, s, steps).sessions && Run(L, s, steps).sessions[id] == s.sessions[id]
    decreases |steps|
  {
    if steps != [] {
      assert steps[0] in steps;
      SessionsStay(L, Next(L, s, steps[0]), steps[1..], id);
    }
  }

  // ---- refresh tokens in the store ----

  const LIFETIME: int := 30 * 24 * 3600 * 1_000_000_000

  datatype TokenStep =
    | Issue(hash: string, owner: string, now: int)
    | Redeem(hash: string, now: int)

  function NextTokens(t: Tables, step: TokenStep): Tables {
    match step
    case Issue(hash, owner, now) => TokenSaved(t, hash, owner, now, now + LIFETIME).0
    case Redeem(hash, now) => TokenRotated(t, hash, now).0
  }

  predicate Redeems(t: Tables, step: TokenStep, hash: string) {
    step.Redeem? && step.hash == hash && TokenRotated(t, hash, step.now).1
  }

  function Redeemed(t: Tables, steps: seq<TokenStep>, hash: string): nat
    decreases |steps|
  {
    if steps == [] then 0
    else (if Redeems(t, steps[0], hash) then 1 else 0) + Redeemed(NextTokens(t, steps[0]), steps[1..], hash)
  }

  function RunTokens(t: Tables, steps: seq<TokenStep>): Tables
    decreases |steps|
  {
    if steps == [] then t else RunTokens(NextTokens(t, steps[0]), steps[1..])
  }

  predicate Used(t: Tables, hash: string) { hash in t.tokens && t.tokens[hash].used.Set? }

  /** A token is redeemed at most once, and a used one never again, also not when
      someone tries to issue it again. */
  lemma {:induction false} RedeemedOnce(t: Tables, steps: seq<TokenStep>, hash: string)
    ensures Redeemed(t, steps, hash) <= if Used(t, hash) then 0 else 1
    decreases |steps|
  {
    if steps != [] { RedeemedOnce(NextTokens(t, steps[0]), steps[1..], hash); }
  }

  ghost predicate Dated(t: Tables) {
    forall h | h in t.tokens ::
      && t.tokens[h].expires == t.tokens[h].issued + LIFETIME
      && (t.tokens[h].used.Set? ==> t.tokens[h].used.at < t.tokens[h].expires)
  }

  lemma {:induction false} RunDated(t: Tables, steps: seq<TokenStep>)
    requires Dated(t)
    ensures Dated(RunTokens(t, steps))
    decreases |steps|
  {
    if steps != [] { RunDated(NextTokens(t, steps[0]), steps[1..]); }
  }

  /** The step that issued the token is in the run, or the row was there before. */
  ghost predicate IssuedAt(t: Tables, steps: seq<TokenStep>, hash: string, owner: string, at: int) {
    || (hash in t.tokens && t.tokens[hash].owner == owner && t.tokens[hash].issued == at)
    || Issue(hash, owner, at) in steps
  }

  lemma {:induction false} RowsWereIssued(t: Tables, steps: seq<TokenStep>, hash: string)
    requires hash in RunTokens(t, steps).tokens
    ensures var row := RunTokens(t, steps).tokens[hash]; IssuedAt(t, steps, hash, row.owner, row.issued)
    decreases |steps|
  {
    if steps != [] {
      assert steps[0] in steps;
      RowsWereIssued(NextTokens(t, steps[0]), steps[1..], hash);
    }
  }

  /** A token is redeemed exactly when it was issued less than thirty days ago, in nanoseconds, and not
      used before; its owner is the one it was issued to. */
  lemma RedeemExact(t: Tables, steps: seq<TokenStep>, hash: string, now: int)
    requires t.tokens == map[]
    ensures var u := RunTokens(t, steps);
            && (Redeems(u, Redeem(hash, now), hash) <==>
                  hash in u.tokens && !Used(u, hash) && now < u.tokens[hash].issued + 2_592_000_000_000_000)
            && (hash in u.tokens ==> Issue(hash, u.tokens[hash].owner, u.tokens[hash].issued) in steps)
  {
    RunDated(t, steps);
    if hash in RunTokens(t, steps).tokens { RowsWereIssued(t, steps, hash); }
  }

  // ---- refresh tokens in memory ----

  function NextMemory(m: map<string, string>, step: TokenStep): map<string, string> {
    match step
    case Issue(hash, owner, _) => m[hash := owner]
    case Redeem(hash, _) => m - {hash}
  }

  function RunMemory(m: map<string, string>, steps: seq<TokenStep>): map<string, string>
    decreases |steps|
  {
    if steps == [] then m else RunMemory(NextMemory(m, steps[0]), steps[1..])
  }

  /** Without a store the time plays no part: the same tokens are accepted whenever the
      steps happen, long after their thirty days too. */
  lemma {:induction false} MemoryIgnoresTime(m: map<string, string>, steps: seq<TokenStep>, later: int)
    ensures RunMemory(m, steps) == RunMemory(m, Shifted(steps, later))
    decreases |steps|
  {
    if steps != [] {
      assert Shifted(steps, later)[1..] == Shifted(steps[1..], later);
      MemoryIgnoresTime(NextMemory(m, steps[0]), steps[1..], later);
    }
  }

  /** The same steps with every redemption `later` nanoseconds later. */
  function Shifted(steps: seq<TokenStep>, later: int): seq<TokenStep> {
    seq(|steps|, i requires 0 <= i < |steps| =>
      if steps[i].Redeem? then steps[i].(now := steps[i].now + later) else steps[i])
  }

  predicate Names(step: TokenStep, hash: string) { step.hash == hash }

  /** The last step that names the token issues it to this owner. */
  ghost predicate LastIssued(steps: seq<TokenStep>, hash: string, owner: string, i: nat) {
    && i < |steps| && steps[i].Issue? && steps[i].hash == hash && steps[i].owner == owner
    && forall j | i < j < |steps| :: !Names(steps[j], hash)
  }

  ghost predicate Outstanding(steps: seq<TokenStep>, hash: string, owner: string) {
    exists i: nat :: LastIssued(steps, hash, owner, i)
  }

  lemma OutstandingCons(steps: seq<TokenStep>, hash: string, owner: string)
    requires steps != []
    ensures Outstanding(steps, hash, owner) <==>
              || Outstanding(steps[1..], hash, owner)
              || (steps[0].Issue? && steps[0].hash == hash && steps[0].owner == owner
                  && forall j | 0 <= j < |steps[1..]| :: !Names(steps[1..][j], hash))
  {
    if Outstanding(steps, hash, owner) {
      var i: nat :| LastIssued(steps, hash, owner, i);
      if i > 0 {
        assert LastIssued(steps[1..], hash, owner, i - 1);
      } else {
        forall j | 0 <= j < |steps[1..]| ensures !Names(steps[1..][j], hash) { assert !Names(steps[j + 1], hash); }
      }
    }
    if Outstanding(steps[1..], hash, owner) {
      var i: nat :| LastIssued(steps[1..], hash, owner, i);
      forall j | i + 1 < j < |steps| ensures !Names(steps[j], hash) { assert !Names(steps[1..][j - 1], hash); }
      assert LastIssued(steps, hash, owner, i + 1);
    }
    if steps[0].Issue? && steps[0].hash == hash && steps[0].owner == owner
       && forall j | 0 <= j < |steps[1..]| :: !Names(steps[1..][j], hash) {
      forall j | 0 < j < |steps| ensures !Names(steps[j], hash) { assert !Names(steps[1..][j - 1], hash); }
      assert LastIssued(steps, hash, owner, 0);
    }
  }

  lemma {:induction false} MemoryHolds(m: map<string, string>, steps: seq<TokenStep>, hash: string, owner: string)
    ensures hash in RunMemory(m, steps) && RunMemory(m, steps)[hash] == owner <==>
              || Outstanding(steps, hash, owner)
              || (hash in m && m[hash] == owner && forall j | 0 <= j < |steps| :: !Names(steps[j], hash))
    decreases |steps|
  {
    hide Outstanding;
    if steps == [] {
      NoneOutstanding(hash, owner);
    } else {
      MemoryHolds(NextMemory(m, steps[0]), steps[1..], hash, owner);
      OutstandingCons(steps, hash, owner);
      assert (forall j | 0 <= j < |steps| :: !Names(steps[j], hash)) <==>
             !Names(steps[0], hash) && forall j | 0 <= j < |steps[1..]| :: !Names(steps[1..][j], hash) by {
        NamesCons(steps, hash);
      }
    }
  }

  lemma NoneOutstanding(hash: string, owner: string)
    ensures !Outstanding([], hash, owner)
  {}

  lemma NamesCons(steps: seq<TokenStep>, hash: string)
    requires steps != []
    ensures (forall j | 0 <= j < |steps| :: !Names(steps[j], hash)) <==>
            !Names(steps[0], hash) && forall j | 0 <= j < |steps[1..]| :: !Names(steps[1..][j], hash)
  {
    if !Names(steps[0], hash) && forall j | 0 <= j < |steps[1..]| :: !Names(steps[1..][j], hash) {
      forall j | 0 <= j < |steps| ensures !Names(steps[j], hash) {
        if j > 0 { assert !Names(steps[1..][j - 1], hash); }
      }
    }
  }

  /** Memory accepts a token for an owner exactly when the last step that names it has
      issued it to that owner, however long ago. */
  lemma MemoryExact(steps: seq<TokenStep>, hash: string, owner: string)
    ensures hash in RunMemory(map[], steps) && RunMemory(map[], steps)[hash] == owner <==> Outstanding(steps, hash, owner)
  {
    MemoryHolds(map[], steps, hash, owner);
  }
}
