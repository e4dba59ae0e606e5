/** persistSession, the requests of one session and its restarts, as the single steps that
    internal/server/server.go takes: a section under a mutex, or one SQL statement. Any
    number of requests interleave their steps in any order. */
module Persistence {
  import opened Evidence
  import opened Interpreter
  import opened Session
  import opened Store
  import opened Recovery

  /** How far a call of persistSession has come. `clears` counts the clears before its events
      were taken. */
  datatype Job =
    | Opened
    | Reported(judge: Judge)
    | Taken(judge: Judge, events: seq<Event>, saved: nat, clears: nat)
    | Counted(judge: Judge, restarts: int)
    | Closing(judge: Judge, restarts: int, submitted: bool)

  /** The session, its rows and the calls under way. A restart request is first granted, then
      restarts the session, then clears its rows. */
  datatype Shared = Shared(live: Live, tables: Tables, granted: nat, uncleared: nat, clears: nat, jobs: map<nat, Job>)

  datatype Step =
    | Enter(line: string)                 // Session.RunLine
    | Grade(score: int, notes: string)    // Session.SetJudge
    | Grant                               // the restart counter, under the server's mutex
    | Renew                               // Session.Restart
    | Clear                               // Store.ClearEvidence
    | Open(job: nat)                      // Store.SaveSession
    | Report(job: nat)                    // Session.Report
    | Take(job: nat)                      // Session.PersistenceEvents
    | Save(job: nat)                      // Store.SaveEvidence, one event
    | Count(job: nat)                     // the restart counter, read under the server's mutex
    | Look(job: nat)                      // Session.IsSubmitted
    | Close(job: nat)                     // Store.SaveSessionMeta

  predicate IsTaken(s: Shared, j: nat) { j in s.jobs && s.jobs[j].Taken? }

  predicate CanSave(s: Shared, j: nat) { IsTaken(s, j) && s.jobs[j].saved < |s.jobs[j].events| }

  /** The event that this call saves next. */
  function NextEvent(s: Shared, j: nat): Event
    requires CanSave(s, j)
  {
    s.jobs[j].events[s.jobs[j].saved]
  }

  /** One step; one that its request has not come to yet does nothing. */
  function Next(W: World, R: Settings, s: Shared, step: Step): (r: Shared)
    requires W.Sane() && Placed(s.live.session)
    ensures Placed(r.live.session)
  {
    match step
    case Enter(line) => s.(live := s.live.(session := AfterLine(W, s.live.session, line).0))
    case Grade(score, notes) => if InRange(R, score) then s.(live := s.live.(judge := Judge(score, notes, true))) else s
    case Grant =>
      if R.allowRestart && !(R.maxRestarts > 0 && s.live.restarts >= R.maxRestarts) then
        s.(live := s.live.(restarts := s.live.restarts + 1), granted := s.granted + 1)
      else s
    case Renew =>
      if s.granted > 0 then
        s.(live := Live(Restarted(s.live.session), s.live.restarts, UNJUDGED), granted := s.granted - 1, uncleared := s.uncleared + 1)
      else s
    case Clear =>
      if s.uncleared > 0 then
        s.(tables := EvidenceCleared(s.tables, W.id), uncleared := s.uncleared - 1, clears := s.clears + 1)
      else s
    case Open(j) =>
      s.(tables := SessionSaved(s.tables, W.id, R.team, R.scenario, s.live.session.started), jobs := s.jobs[j := Opened])
    case Report(j) =>
      if j in s.jobs && s.jobs[j].Opened? then s.(jobs := s.jobs[j := Reported(s.live.judge)]) else s
    case Take(j) =>
      if j in s.jobs && s.jobs[j].Reported? then
        s.(jobs := s.jobs[j := Taken(s.jobs[j].judge, s.live.session.log.events, 0, s.clears)])
      else s
    case Save(j) =>
      if CanSave(s, j) then
        s.(tables := EvidenceSaved(s.tables, NextEvent(s, j)), jobs := s.jobs[j := s.jobs[j].(saved := s.jobs[j].saved + 1)])
      else s
    case Count(j) =>
      if IsTaken(s, j) && !CanSave(s, j) then s.(jobs := s.jobs[j := Counted(s.jobs[j].judge, s.live.restarts)]) else s
    case Look(j) =>
      if j in s.jobs && s.jobs[j].Counted? then
        s.(jobs := s.jobs[j := Closing(s.jobs[j].judge, s.jobs[j].restarts, s.live.session.lab.submitted)])
      else s
    case Close(j) =>
      if j in s.jobs && s.jobs[j].Closing? then
        var job := s.jobs[j];
        s.(tables := MetaSaved(s.tables, W.id, Meta(job.restarts, job.judge.score, job.judge.notes, job.judge.judged, job.submitted)),
           jobs := s.jobs - {j})
      else s
  }

  function Run(W: World, R: Settings, s: Shared, steps: seq<Step>): Shared
    requires W.Sane() && Placed(s.live.session)
    decreases |steps|
  {
    if steps == [] then s else Run(W, R, Next(W, R, s, steps[0]), steps[1..])
  }

  /** A session just created. */
  function Born(W: World, R: Settings, t: Tables, seed: int): Shared
    requires W.Sane()
  {
    var (u, live) := Created(W, R, t, seed);
    Shared(live, u, 0, 0, 0, map[])
  }

  // ---- when the rows are a prefix of the chain ----

  /** No restart is waiting for its clear. */
  predicate Quiet(s: Shared) { s.uncleared == 0 }

  ghost predicate Prefix(W: World, s: Shared) { exists m: nat :: RowsUpTo(W, s.tables, s.live.session.log, m) }

  /** In every state of the run in which no clear is outstanding, the rows are the first
      events of the session's chain, and nothing else. */
  ghost predicate AlwaysPrefix(W: World, R: Settings, s: Shared, steps: seq<Step>)
    requires W.Sane() && Placed(s.live.session)
    decreases |steps|
  {
    && (Quiet(s) ==> Prefix(W, s))
    && (steps == [] || AlwaysPrefix(W, R, Next(W, R, s, steps[0]), steps[1..]))
  }

  /** The call took its events before the last clear. */
  predicate Late(s: Shared, j: nat) { IsTaken(s, j) && s.jobs[j].clears < s.clears }

  /** The event is the chain's own, and the row before it is there. */
  predicate Fits(W: World, s: Shared, e: Event) {
    && 1 <= e.sequence <= |s.live.session.log.events| && s.live.session.log.events[e.sequence - 1] == e
    && (e.sequence > 1 ==> (W.id, e.sequence - 1) in s.tables.evidence)
  }

  /** A call that took its events before the last clear saves, after it, an event that does not fit. */
  predicate Harmful(W: World, s: Shared, step: Step) {
    step.Save? && CanSave(s, step.job) && Quiet(s) && Late(s, step.job) && !Fits(W, s, NextEvent(s, step.job))
  }

  predicate NeverHarmful(W: World, R: Settings, s: Shared, steps: seq<Step>)
    requires W.Sane() && Placed(s.live.session)
    decreases |steps|
  {
    steps == [] || (!Harmful(W, s, steps[0]) && NeverHarmful(W, R, Next(W, R, s, steps[0]), steps[1..]))
  }

  // ---- the invariant ----

  /** The events of a chain of this session. */
  ghost predicate Chained(W: World, events: seq<Event>) {
    forall i | 0 <= i < |events| :: events[i].sessionID == W.id && events[i].sequence == i + 1
  }

  ghost predicate JobFits(W: World, s: Shared, j: nat)
    requires IsTaken(s, j)
  {
    var job := s.jobs[j];
    && Chained(W, job.events) && job.saved <= |job.events| && job.clears <= s.clears
    && (Quiet(s) && !Late(s, j) ==> job.events <= s.live.session.log.events)
  }

  /** Calls that took their events since the last clear have taken them from the current chain,
      and what they have saved is in the rows. */
  ghost predicate Orderly(W: World, s: Shared) {
    && Placed(s.live.session) && Ours(W, s.live.session.log)
    && (forall j | IsTaken(s, j) :: JobFits(W, s, j))
    && (Quiet(s) ==> exists m: nat :: Behind(W, s, m))
  }

  ghost predicate Behind(W: World, s: Shared, m: nat) {
    && RowsUpTo(W, s.tables, s.live.session.log, m)
    && forall j | IsTaken(s, j) && !Late(s, j) :: s.jobs[j].saved <= m
  }

  lemma OursChained(W: World, log: Log)
    requires Ours(W, log)
    ensures Chained(W, log.events)
  {
    forall i: nat | i < |log.events| ensures log.events[i].sessionID == W.id && log.events[i].sequence == i + 1 {
      assert Linked(W.hashing, log.events, i) && log.events[i] in log.events;
    }
  }

  // ---- every step ----

  lemma JobGrows(W: World, s: Shared, after: Shared, j: nat)
    requires IsTaken(s, j) && JobFits(W, s, j) && IsTaken(after, j) && after.jobs[j] == s.jobs[j]
    requires after.clears == s.clears && (Quiet(after) ==> Quiet(s) && s.live.session.log.events <= after.live.session.log.events)
    ensures JobFits(W, after, j)
  {}

  lemma BehindGrows(W: World, s: Shared, after: Shared, m: nat)
    requires Behind(W, s, m) && after.tables.evidence == s.tables.evidence && after.jobs == s.jobs && after.clears == s.clears
    requires s.live.session.log.events <= after.live.session.log.events
    ensures Behind(W, after, m)
  {
    assert after.live.session.log.events[..m] == s.live.session.log.events[..m];
  }

  lemma InputOrderly(W: World, R: Settings, s: Shared, line: string)
    requires W.Sane() && Orderly(W, s)
    ensures Orderly(W, Next(W, R, s, Enter(line)))
  {
    hide AfterLine, Placed, Ours, RowsUpTo, JobFits;
    var after := Next(W, R, s, Enter(line));
    LineIsOurs(W, s.live.session, line);
    forall j | IsTaken(after, j) ensures JobFits(W, after, j) { JobGrows(W, s, after, j); }
    if Quiet(s) {
      var m: nat :| Behind(W, s, m);
      BehindGrows(W, s, after, m);
    }
  }

  /** Steps that leave chain, rows and taken events alone. */
  lemma SameOrderly(W: World, s: Shared, after: Shared)
    requires Orderly(W, s) && after.live.session == s.live.session && after.tables.evidence == s.tables.evidence
    requires after.uncleared == s.uncleared && after.clears == s.clears
    requires forall j | IsTaken(after, j) :: IsTaken(s, j) && after.jobs[j] == s.jobs[j]
    ensures Orderly(W, after)
  {
    hide Placed, Ours, RowsUpTo, JobFits;
    forall j | IsTaken(after, j) ensures JobFits(W, after, j) { JobGrows(W, s, after, j); }
    if Quiet(s) {
      var m: nat :| Behind(W, s, m);
      SameRows(W, s, after, m);
      assert Behind(W, after, m);
    }
  }

  lemma SameRows(W: World, s: Shared, after: Shared, m: nat)
    requires RowsUpTo(W, s.tables, s.live.session.log, m)
    requires after.live.session == s.live.session && after.tables.evidence == s.tables.evidence
    ensures RowsUpTo(W, after.tables, after.live.session.log, m)
  {}

  lemma RenewOrderly(W: World, R: Settings, s: Shared)
    requires W.Sane() && Orderly(W, s)
    ensures Orderly(W, Next(W, R, s, Renew))
  {
    hide Placed, Ours, RowsUpTo;
    RestartPlaced(W, s.live.session);
    var after := Next(W, R, s, Renew);
    if s.granted > 0 {
      forall j | IsTaken(after, j) ensures JobFits(W, after, j) { JobGrows(W, s, after, j); }
    }
  }

  lemma ClearOrderly(W: World, R: Settings, s: Shared)
    requires W.Sane() && Orderly(W, s)
    ensures Orderly(W, Next(W, R, s, Clear))
  {
    hide Placed, Ours;
    var after := Next(W, R, s, Clear);
    if s.uncleared > 0 {
      forall j | IsTaken(after, j) ensures JobFits(W, after, j) && Late(after, j) { assert JobFits(W, s, j); }
      ClearedRows(s.tables, W.id);
      assert after.live.session.log.events[..0] == [];
      assert Behind(W, after, 0);
    }
  }

  lemma TakeOrderly(W: World, R: Settings, s: Shared, j: nat)
    requires W.Sane() && Orderly(W, s)
    ensures Orderly(W, Next(W, R, s, Take(j)))
  {
    hide Placed, Ours, RowsUpTo;
    var after := Next(W, R, s, Take(j));
    OursChained(W, s.live.session.log);
    forall k | IsTaken(after, k) ensures JobFits(W, after, k) {
      if k != j { JobGrows(W, s, after, k); }
    }
    if Quiet(s) {
      var m: nat :| Behind(W, s, m);
      assert Behind(W, after, m);
    }
  }

  /** A saved event that is the chain's next, or one of its saved ones. */
  lemma SaveFits(W: World, t: Tables, log: Log, m: nat, e: Event)
    requires RowsUpTo(W, t, log, m) && e.sessionID == W.id && 1 <= e.sequence <= m + 1
    requires e.sequence <= |log.events| && log.events[e.sequence - 1] == e
    ensures RowsUpTo(W, EvidenceSaved(t, e), log, if e.sequence <= m then m else m + 1)
  {
    if e.sequence <= m {
      assert log.events[..m][e.sequence - 1] == e;
      SavedAgain(t, W.id, log.events[..m], e.sequence - 1);
    } else {
      SavedOne(t, W.id, log.events[..m], e);
      assert log.events[..m] + [e] == log.events[..m + 1];
    }
  }

  lemma FitsBehind(W: World, s: Shared, m: nat, e: Event)
    requires RowsUpTo(W, s.tables, s.live.session.log, m) && Fits(W, s, e)
    ensures e.sequence <= m + 1
  {}

  /** The event that a call saves, of a call that is not late or whose event fits. */
  lemma NextFits(W: World, s: Shared, j: nat, m: nat)
    requires Orderly(W, s) && Quiet(s) && CanSave(s, j) && Behind(W, s, m)
    requires !Late(s, j) || Fits(W, s, NextEvent(s, j))
    ensures var e := NextEvent(s, j);
            && e.sessionID == W.id && e.sequence == s.jobs[j].saved + 1 && e.sequence <= m + 1
            && e.sequence <= |s.live.session.log.events| && s.live.session.log.events[e.sequence - 1] == e
  {
    hide Placed, Ours, RowsUpTo;
    assert JobFits(W, s, j);
    if Late(s, j) { FitsBehind(W, s, m, NextEvent(s, j)); }
  }

  lemma SaveOrderly(W: World, R: Settings, s: Shared, j: nat)
    requires W.Sane() && Orderly(W, s) && !Harmful(W, s, Save(j))
    ensures Orderly(W, Next(W, R, s, Save(j)))
  {
    hide Placed, Ours, RowsUpTo, EvidenceSaved, Fits;
    var after := Next(W, R, s, Save(j));
    forall k | IsTaken(after, k) ensures JobFits(W, after, k) { assert JobFits(W, s, k); }
    if Quiet(s) {
      var m: nat :| Behind(W, s, m);
      if CanSave(s, j) {
        NextFits(W, s, j, m);
        var e := NextEvent(s, j);
        SaveFits(W, s.tables, s.live.session.log, m, e);
        assert Behind(W, after, if e.sequence <= m then m else m + 1);
      }
    }
  }

  lemma StepOrderly(W: World, R: Settings, s: Shared, step: Step)
    requires W.Sane() && Orderly(W, s) && !Harmful(W, s, step)
    ensures Orderly(W, Next(W, R, s, step))
  {
    hide Orderly, Placed, Harmful, AfterLine;
    OrderlyPlaced(W, s);
    match step
    case Enter(line) => InputOrderly(W, R, s, line);
    case Renew => RenewOrderly(W, R, s);
    case Clear => ClearOrderly(W, R, s);
    case Take(j) => TakeOrderly(W, R, s, j);
    case Save(j) => SaveOrderly(W, R, s, j);
    case _ => SameOrderly(W, s, Next(W, R, s, step));
  }

  /** A harmful save leaves rows that are no prefix, at once. */
  lemma HarmfulBreaks(W: World, R: Settings, s: Shared, step: Step)
    requires W.Sane() && Orderly(W, s) && Harmful(W, s, step)
    ensures var after := Next(W, R, s, step); Quiet(after) && !Prefix(W, after)
  {
    hide Placed, Ours;
    var after := Next(W, R, s, step);
    var e := NextEvent(s, step.job);
    assert JobFits(W, s, step.job);
    if Prefix(W, after) { PrefixFits(W, after, e); }
  }

  /** Every row of a prefix fits. */
  lemma PrefixFits(W: World, s: Shared, e: Event)
    requires Prefix(W, s) && (W.id, e.sequence) in s.tables.evidence && s.tables.evidence[(W.id, e.sequence)] == e
    ensures Fits(W, s, e)
  {
    var m: nat :| RowsUpTo(W, s.tables, s.live.session.log, m);
    RowOfPrefix(W, s, m, e.sequence);
    if e.sequence > 1 { RowOfPrefix(W, s, m, e.sequence - 1); }
  }

  lemma RowOfPrefix(W: World, s: Shared, m: nat, n: nat)
    requires RowsUpTo(W, s.tables, s.live.session.log, m)
    ensures (W.id, n) in s.tables.evidence <==> 1 <= n <= m
    ensures 1 <= n <= m ==> s.tables.evidence[(W.id, n)] == s.live.session.log.events[n - 1]
  {}

  // ---- all runs ----

  lemma OrderlyPrefix(W: World, s: Shared)
    requires Orderly(W, s) && Quiet(s)
    ensures Prefix(W, s)
  {
    var m: nat :| Behind(W, s, m);
  }

  /** In every run, whatever the requests and their interleaving: the rows are a prefix of
      the chain whenever no clear is outstanding, exactly if no call that took its events
      before the last clear saves an event after it that does not fit. */
  lemma {:induction false} PrefixExact(W: World, R: Settings, s: Shared, steps: seq<Step>)
    requires W.Sane() && Orderly(W, s)
    ensures AlwaysPrefix(W, R, s, steps) <==> NeverHarmful(W, R, s, steps)
    decreases |steps|
  {
    hide Orderly, Harmful, Next, Prefix, Placed;
    OrderlyPlaced(W, s);
    if Quiet(s) { OrderlyPrefix(W, s); }
    if steps != [] {
      if Harmful(W, s, steps[0]) {
        HarmfulBreaks(W, R, s, steps[0]);
        BreaksAlways(W, R, Next(W, R, s, steps[0]), steps[1..]);
      } else {
        StepOrderly(W, R, s, steps[0]);
        PrefixExact(W, R, Next(W, R, s, steps[0]), steps[1..]);
      }
    }
  }

  lemma OrderlyPlaced(W: World, s: Shared)
    requires Orderly(W, s)
    ensures Placed(s.live.session)
  {}

  lemma BreaksAlways(W: World, R: Settings, s: Shared, steps: seq<Step>)
    requires W.Sane() && Placed(s.live.session) && Quiet(s) && !Prefix(W, s)
    ensures !AlwaysPrefix(W, R, s, steps)
  {}

  lemma BornOrderly(W: World, R: Settings, t: Tables, seed: int)
    requires W.Sane() && W.id !in t.sessions && RowsAre(t, W.id, [])
    ensures Orderly(W, Born(W, R, t, seed)) && Quiet(Born(W, R, t, seed))
  {
    var s := Born(W, R, t, seed);
    assert s.live.session.log.events[..0] == [];
    assert Behind(W, s, 0);
  }

  /** A call saves after a clear what it took before it. */
  predicate SavesLate(s: Shared, step: Step) {
    step.Save? && CanSave(s, step.job) && Quiet(s) && Late(s, step.job)
  }

  predicate NeverLate(W: World, R: Settings, s: Shared, steps: seq<Step>)
    requires W.Sane() && Placed(s.live.session)
    decreases |steps|
  {
    steps == [] || (!SavesLate(s, steps[0]) && NeverLate(W, R, Next(W, R, s, steps[0]), steps[1..]))
  }

  lemma {:induction false} NeverLateFits(W: World, R: Settings, s: Shared, steps: seq<Step>)
    requires W.Sane() && Placed(s.live.session) && NeverLate(W, R, s, steps)
    ensures NeverHarmful(W, R, s, steps)
    decreases |steps|
  {
    hide Next, Placed, Fits;
    if steps != [] { NeverLateFits(W, R, Next(W, R, s, steps[0]), steps[1..]); }
  }

  lemma {:induction false} NobodyLate(W: World, R: Settings, s: Shared, steps: seq<Step>)
    requires W.Sane() && Placed(s.live.session) && Quiet(s) && forall j | IsTaken(s, j) :: !Late(s, j)
    requires Renew !in steps
    ensures NeverLate(W, R, s, steps)
    decreases |steps|
  {
    hide AfterLine, Placed;
    if steps != [] {
      assert steps[0] in steps && steps[0] != Renew;
      var next := Next(W, R, s, steps[0]);
      forall j | IsTaken(next, j) ensures !Late(next, j) {
        if IsTaken(s, j) { assert !Late(s, j); }
      }
      NobodyLate(W, R, Next(W, R, s, steps[0]), steps[1..]);
    }
  }

  /** Without restarts the rows are always a prefix of the chain, however the requests overlap. */
  lemma PrefixWithoutRestarts(W: World, R: Settings, t: Tables, seed: int, steps: seq<Step>)
    requires W.Sane() && W.id !in t.sessions && RowsAre(t, W.id, []) && Renew !in steps
    ensures AlwaysPrefix(W, R, Born(W, R, t, seed), steps)
  {
    hide AlwaysPrefix, NeverHarmful, NeverLate, Orderly, Placed;
    var s := Born(W, R, t, seed);
    BornOrderly(W, R, t, seed);
    OrderlyPlaced(W, s);
    NobodyLate(W, R, s, steps);
    NeverLateFits(W, R, s, steps);
    PrefixExact(W, R, s, steps);
  }

  // ---- what recovery finds ----

  lemma {:induction false} RunOrderly(W: World, R: Settings, s: Shared, steps: seq<Step>)
    requires W.Sane() && Orderly(W, s) && Placed(s.live.session) && NeverHarmful(W, R, s, steps)
    ensures Orderly(W, Run(W, R, s, steps))
    decreases |steps|
  {
    hide Orderly, Harmful, Next, Placed;
    if steps != [] {
      StepOrderly(W, R, s, steps[0]);
      OrderlyPlaced(W, Next(W, R, s, steps[0]));
      RunOrderly(W, R, Next(W, R, s, steps[0]), steps[1..]);
    }
  }

  /** The call took the chain as it still is, and has saved all of it. */
  predicate HasSaved(s: Shared, j: nat) {
    IsTaken(s, j) && !CanSave(s, j) && !Late(s, j) && s.jobs[j].events == s.live.session.log.events
  }

  /** Then the rows are exactly the chain. */
  lemma CaughtUp(W: World, s: Shared, j: nat)
    requires Orderly(W, s) && Quiet(s) && HasSaved(s, j)
    ensures RowsAre(s.tables, W.id, s.live.session.log.events)
  {
    hide Placed, Ours, RowsAre;
    assert JobFits(W, s, j);
    var m: nat :| Behind(W, s, m);
    assert s.live.session.log.events[..m] == s.live.session.log.events;
  }

  lemma RowsStay(W: World, R: Settings, s: Shared, step: Step)
    requires W.Sane() && Placed(s.live.session)
    ensures var after := Next(W, R, s, step);
            && (forall id | id in s.tables.sessions :: id in after.tables.sessions)
            && (forall id | id in s.tables.meta :: id in after.tables.meta)
  {
    hide AfterLine, Placed;
  }

  lemma {:induction false} RowsStayInRun(W: World, R: Settings, s: Shared, steps: seq<Step>)
    requires W.Sane() && Placed(s.live.session) && W.id in s.tables.sessions
    ensures W.id in Run(W, R, s, steps).tables.sessions
    decreases |steps|
  {
    hide Next, Placed;
    if steps != [] {
      RowsStay(W, R, s, steps[0]);
      RowsStayInRun(W, R, Next(W, R, s, steps[0]), steps[1..]);
    }
  }

  /** Rows of exactly the chain: recovery brings the chain back. */
  lemma RecoversChain(W: World, R: Settings, t: Tables, log: Log, stamp: int)
    requires W.Sane() && W.id in t.sessions && RowsAre(t, W.id, log.events) && Ours(W, log)
    ensures Recover(W, R, t, stamp).Back? && Recover(W, R, t, stamp).live.session.log == log
  {
    hide RunLines, Commands, Verified, InRange, RowsAre, Loaded;
    LoadGivesRows(t, W.id, log.events);
    OursVerified(W, log);
  }

  // ---- one request after the other ----

  lemma RunCons(W: World, R: Settings, s: Shared, step: Step, rest: seq<Step>)
    requires W.Sane() && Placed(s.live.session)
    ensures Run(W, R, s, [step] + rest) == Run(W, R, Next(W, R, s, step), rest)
  {
    assert ([step] + rest)[1..] == rest;
  }

  lemma {:induction false} RunBoth(W: World, R: Settings, s: Shared, a: seq<Step>, b: seq<Step>)
    requires W.Sane() && Placed(s.live.session)
    ensures Placed(Run(W, R, s, a).live.session)
    ensures Run(W, R, s, a + b) == Run(W, R, Run(W, R, s, a), b)
    decreases |a|
  {
    hide Next, Placed;
    if a == [] {
      assert a + b == b;
    } else {
      RunBoth(W, R, Next(W, R, s, a[0]), a[1..], b);
      assert a + b == [a[0]] + (a[1..] + b);
      RunCons(W, R, s, a[0], a[1..] + b);
    }
  }

  function Saves(j: nat, n: nat): seq<Step> { seq(n, _ => Save(j)) }

  lemma {:induction false} SavesRun(W: World, R: Settings, s: Shared, j: nat, n: nat)
    requires W.Sane() && Placed(s.live.session) && IsTaken(s, j) && s.jobs[j].saved + n == |s.jobs[j].events|
    ensures Run(W, R, s, Saves(j, n))
         == s.(tables := SaveAll(s.tables, s.jobs[j].events[s.jobs[j].saved..]), jobs := s.jobs[j := s.jobs[j].(saved := |s.jobs[j].events|)])
    decreases n
  {
    hide Placed, EvidenceSaved;
    var job := s.jobs[j];
    if n == 0 {
      assert job.events[job.saved..] == [];
      assert s.jobs[j := job.(saved := |job.events|)] == s.jobs;
    } else {
      assert Saves(j, n) == [Save(j)] + Saves(j, n - 1);
      RunCons(W, R, s, Save(j), Saves(j, n - 1));
      var next := Next(W, R, s, Save(j));
      assert job.events[job.saved..][0] == NextEvent(s, j) && job.events[job.saved..][1..] == job.events[job.saved + 1..];
      SavesRun(W, R, next, j, n - 1);
      assert next.jobs[j := next.jobs[j].(saved := |job.events|)] == s.jobs[j := job.(saved := |job.events|)];
    }
  }

  /** persistSession, undisturbed. */
  function PersistSteps(j: nat, n: nat): seq<Step> {
    [Open(j), Report(j), Take(j)] + (Saves(j, n) + [Count(j), Look(j), Close(j)])
  }

  lemma Three(W: World, R: Settings, s: Shared, a: Step, b: Step, c: Step)
    requires W.Sane() && Placed(s.live.session)
    ensures Run(W, R, s, [a, b, c]) == Next(W, R, Next(W, R, Next(W, R, s, a), b), c)
  {
    hide Next, Placed;
    assert [a, b, c] == [a] + [b, c] && [b, c] == [b] + [c] && [c] == [c] + [];
    RunCons(W, R, s, a, [b, c]);
    var t := Next(W, R, s, a);
    RunCons(W, R, t, b, [c]);
    RunCons(W, R, Next(W, R, t, b), c, []);
  }

  lemma TakenRun(W: World, R: Settings, s: Shared, j: nat)
    requires W.Sane() && Placed(s.live.session)
    ensures Run(W, R, s, [Open(j), Report(j), Take(j)])
         == s.(tables := SessionSaved(s.tables, W.id, R.team, R.scenario, s.live.session.started),
               jobs := s.jobs[j := Taken(s.live.judge, s.live.session.log.events, 0, s.clears)])
  {
    hide Placed, Run, SessionSaved;
    Three(W, R, s, Open(j), Report(j), Take(j));
  }

  lemma ClosedRun(W: World, R: Settings, s: Shared, j: nat)
    requires W.Sane() && Placed(s.live.session) && IsTaken(s, j) && !CanSave(s, j) && s.jobs[j].judge == s.live.judge
    ensures Run(W, R, s, [Count(j), Look(j), Close(j)])
         == s.(tables := MetaSaved(s.tables, W.id, MetaOf(s.live)), jobs := s.jobs - {j})
  {
    hide Placed, Run;
    Three(W, R, s, Count(j), Look(j), Close(j));
    assert Run(W, R, s, [Count(j), Look(j), Close(j)]).jobs == s.jobs - {j};
  }

  lemma PersistRun(W: World, R: Settings, s: Shared, j: nat)
    requires W.Sane() && Placed(s.live.session)
    ensures Run(W, R, s, PersistSteps(j, |s.live.session.log.events|))
         == s.(tables := Persisted(W, R, s.tables, s.live), jobs := s.jobs - {j})
  {
    hide Placed, Run, SaveAll, SessionSaved, MetaOf;
    var events := s.live.session.log.events;
    var n := |events|;
    RunBoth(W, R, s, [Open(j), Report(j), Take(j)], Saves(j, n) + [Count(j), Look(j), Close(j)]);
    TakenRun(W, R, s, j);
    var taken := Run(W, R, s, [Open(j), Report(j), Take(j)]);
    RunBoth(W, R, taken, Saves(j, n), [Count(j), Look(j), Close(j)]);
    SavesRun(W, R, taken, j, n);
    assert events[0..] == events;
    var saved := Run(W, R, taken, Saves(j, n));
    ClosedRun(W, R, saved, j);
    assert saved.jobs - {j} == s.jobs - {j};
  }

  /** The steps of a request that nothing overlaps. */
  function RequestSteps(W: World, R: Settings, s: Shared, r: Recovery.Request, j: nat): seq<Step>
    requires W.Sane() && Placed(s.live.session)
  {
    match r
    case Line(input) => [Enter(input)] + PersistSteps(j, |AfterLine(W, s.live.session, input).0.log.events|)
    case Terminal(input) => [Enter(input)]
    case RestartSession => if MayRestart(R, s.live) then [Grant, Renew, Clear] + PersistSteps(j, 0) else []
    case Judging(score, notes) => if InRange(R, score) then [Grade(score, notes)] + PersistSteps(j, |s.live.session.log.events|) else []
  }

  /** Requests that come one after the other do what module Recovery says of them as a whole. */
  lemma RequestIsRun(W: World, R: Settings, s: Shared, r: Recovery.Request, j: nat)
    requires W.Sane() && Placed(s.live.session) && s.granted == 0 && Quiet(s) && j !in s.jobs
    ensures var (u, live) := Handled(W, R, s.tables, s.live, r);
            var after := Run(W, R, s, RequestSteps(W, R, s, r, j));
            after == s.(live := live, tables := u, clears := after.clears)
  {
    hide Placed, Run, PersistSteps, AfterLine, Persisted;
    match r
    case Line(input) =>
      RunCons(W, R, s, Enter(input), PersistSteps(j, |AfterLine(W, s.live.session, input).0.log.events|));
      PersistRun(W, R, Next(W, R, s, Enter(input)), j);
      assert s.jobs - {j} == s.jobs;
    case Terminal(input) => Single(W, R, s, Enter(input));
    case RestartSession =>
      if MayRestart(R, s.live) {
        RunBoth(W, R, s, [Grant, Renew, Clear], PersistSteps(j, 0));
        Three(W, R, s, Grant, Renew, Clear);
        PersistRun(W, R, Run(W, R, s, [Grant, Renew, Clear]), j);
        assert s.jobs - {j} == s.jobs;
      } else {
        Nothing(W, R, s);
      }
    case Judging(score, notes) =>
      if InRange(R, score) {
        RunCons(W, R, s, Grade(score, notes), PersistSteps(j, |s.live.session.log.events|));
        PersistRun(W, R, Next(W, R, s, Grade(score, notes)), j);
        assert s.jobs - {j} == s.jobs;
      } else {
        Nothing(W, R, s);
      }
  }

  lemma Single(W: World, R: Settings, s: Shared, step: Step)
    requires W.Sane() && Placed(s.live.session)
    ensures Run(W, R, s, [step]) == Next(W, R, s, step)
  {
    hide Next, Placed;
    assert [step] == [step] + [];
    RunCons(W, R, s, step, []);
  }

  lemma Nothing(W: World, R: Settings, s: Shared)
    requires W.Sane() && Placed(s.live.session)
    ensures Run(W, R, s, []) == s
  {}
}
