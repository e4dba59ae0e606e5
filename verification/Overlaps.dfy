/** Overlapping requests of one session, from its creation on: what goes wrong, and what
    recovery then makes of the rows. */
module Overlaps {
  import opened Evidence
  import opened Interpreter
  import opened Session
  import opened Store
  import opened Recovery
  import opened Persistence

  /** The setting: a session that was just created and may be restarted, and a line that is not blank. */
  ghost predicate Setting(W: World, R: Settings, t: Tables, input: string) {
    W.Sane() && W.id !in t.sessions && RowsAre(t, W.id, []) && R.allowRestart && TrimSpace(input) != ""
  }

  lemma BornPlaced(W: World, R: Settings, t: Tables, seed: int)
    requires W.Sane()
    ensures Placed(Born(W, R, t, seed).live.session)
  {}

  /** The first line of a fresh session: a chain of one event of this session. */
  lemma FirstLine(W: World, seed: int, input: string)
    requires W.Sane() && TrimSpace(input) != ""
    ensures var log := AfterLine(W, NewSession(W, seed), input).0.log;
            && Ours(W, log) && |log.events| == 1 && log.events[0].command == TrimSpace(input)
            && log.events[0].sessionID == W.id && log.events[0].sequence == 1
  {
    hide TrimSpace, AfterLine, Wellformed;
    var s := NewSession(W, seed);
    EmptyIsOurs(W);
    LineRecorded(W, s, input);
    LineIsOurs(W, s, input);
    OursChained(W, AfterLine(W, s, input).0.log);
  }

  lemma EmptyIsOurs(W: World)
    ensures Ours(W, EMPTY)
  {}

  lemma NextLine(W: World, s: Session, input: string)
    requires W.Sane() && Placed(s) && Ours(W, s.log) && TrimSpace(input) != ""
    ensures var log := AfterLine(W, s, input).0.log;
            && Ours(W, log) && Chained(W, log.events) && |log.events| == |s.log.events| + 1 && log.events[..|s.log.events|] == s.log.events
  {
    hide TrimSpace, AfterLine, Wellformed;
    LineRecorded(W, s, input);
    LineIsOurs(W, s, input);
    OursChained(W, AfterLine(W, s, input).0.log);
  }

  // ---- a call that a restart overtakes ----

  /** Line, and a call that takes it; restart and clear; then the call saves it. */
  function StaleSteps(input: string): seq<Step> {
    [Enter(input), Open(1), Report(1), Take(1)] + ([Grant, Renew, Clear] + [Save(1)])
  }

  lemma Four(W: World, R: Settings, s: Shared, a: Step, b: Step, c: Step, d: Step)
    requires W.Sane() && Placed(s.live.session)
    ensures Run(W, R, s, [a, b, c, d]) == Next(W, R, Next(W, R, Next(W, R, Next(W, R, s, a), b), c), d)
  {
    hide Next, Placed;
    assert [a, b, c, d] == [a] + [b, c, d];
    RunCons(W, R, s, a, [b, c, d]);
    Three(W, R, Next(W, R, s, a), b, c, d);
  }

  /** A call with one event in hand, from the setting on. */
  lemma FirstTaken(W: World, R: Settings, t: Tables, seed: int, input: string)
    requires Setting(W, R, t, input)
    ensures var b := Born(W, R, t, seed); var s := Run(W, R, b, [Enter(input), Open(1), Report(1), Take(1)]);
            && s.live == b.live.(session := AfterLine(W, NewSession(W, seed), input).0)
            && s.tables == b.tables && s.granted == 0 && s.uncleared == 0 && s.clears == 0
            && s.jobs == map[1 := Taken(UNJUDGED, s.live.session.log.events, 0, 0)]
  {
    hide AfterLine, TrimSpace, RowsAre, Placed, Run;
    BornPlaced(W, R, t, seed);
    Four(W, R, Born(W, R, t, seed), Enter(input), Open(1), Report(1), Take(1));
  }

  /** What the restart leaves, with the call still under way. */
  lemma RestartedUnder(W: World, R: Settings, s: Shared)
    requires W.Sane() && Placed(s.live.session) && R.allowRestart && s.live.restarts == 0 && s.granted == 0 && s.uncleared == 0
    ensures var u := Run(W, R, s, [Grant, Renew, Clear]);
            && u.live == Live(Restarted(s.live.session), 1, UNJUDGED) && u.tables == EvidenceCleared(s.tables, W.id)
            && u.granted == 0 && u.uncleared == 0 && u.clears == s.clears + 1 && u.jobs == s.jobs
  {
    hide Placed, Run;
    Three(W, R, s, Grant, Renew, Clear);
  }

  /** The line of before the restart is back in the rows of an empty chain, and recovery
      makes it the session's first line again. */
  lemma StaleRowReturns(W: World, R: Settings, t: Tables, seed: int, input: string, stamp: int)
    requires Setting(W, R, t, input)
    ensures Placed(Born(W, R, t, seed).live.session)
    ensures var s := Run(W, R, Born(W, R, t, seed), StaleSteps(input));
            && Quiet(s) && s.live.session.log.events == [] && !Prefix(W, s)
            && Recover(W, R, s.tables, stamp).Back?
            && var events := Recover(W, R, s.tables, stamp).live.session.log.events;
               |events| == 1 && events[0].command == TrimSpace(input)
  {
    hide AfterLine, TrimSpace, RowsAre, Placed, Run, Recover, EvidenceCleared, EvidenceSaved;
    var b := Born(W, R, t, seed);
    BornPlaced(W, R, t, seed);
    var taken := Run(W, R, b, [Enter(input), Open(1), Report(1), Take(1)]);
    FirstTaken(W, R, t, seed, input);
    RunBoth(W, R, b, [Enter(input), Open(1), Report(1), Take(1)], [Grant, Renew, Clear] + [Save(1)]);
    RunBoth(W, R, taken, [Grant, Renew, Clear], [Save(1)]);
    RestartedUnder(W, R, taken);
    var renewed := Run(W, R, taken, [Grant, Renew, Clear]);
    Single(W, R, renewed, Save(1));
    FirstLine(W, seed, input);
    var log := AfterLine(W, NewSession(W, seed), input).0.log;
    OneRow(W, taken.tables, log.events[0]);
    var s := Run(W, R, renewed, [Save(1)]);
    assert log.events == [log.events[0]];
    RowsStayInRun(W, R, b, StaleSteps(input));
    RecoversChain(W, R, s.tables, log, stamp);
    TooManyRows(W, s, log.events);
  }

  lemma OneRow(W: World, t: Tables, e: Event)
    requires e.sessionID == W.id && e.sequence == 1
    ensures RowsAre(EvidenceSaved(EvidenceCleared(t, W.id), e), W.id, [e])
  {
    hide EvidenceCleared, EvidenceSaved;
    ClearedRows(t, W.id);
    SavedOne(EvidenceCleared(t, W.id), W.id, [], e);
    assert [] + [e] == [e];
  }

  /** More rows than events. */
  lemma TooManyRows(W: World, s: Shared, events: seq<Event>)
    requires RowsAre(s.tables, W.id, events) && |events| > |s.live.session.log.events|
    ensures !Prefix(W, s)
  {
    if Prefix(W, s) {
      var m: nat :| RowsUpTo(W, s.tables, s.live.session.log, m);
      RowOfPrefix(W, s, m, |events|);
    }
  }

  function AgainSteps(input: string): seq<Step> {
    [Enter(input), Open(1), Report(1), Take(1)] + ([Grant, Renew, Clear] + [Enter(input)])
  }

  lemma LineAgain(W: World, R: Settings, t: Tables, seed: int, input: string)
    requires Setting(W, R, t, input)
    ensures Placed(Born(W, R, t, seed).live.session)
    ensures var b := Born(W, R, t, seed); var s := Run(W, R, b, AgainSteps(input));
            var log := AfterLine(W, NewSession(W, seed), input).0.log;
            && Placed(s.live.session) && s.live.session.log == log && s.tables == EvidenceCleared(b.tables, W.id)
            && s.uncleared == 0 && s.clears == 1 && s.jobs == map[1 := Taken(UNJUDGED, log.events, 0, 0)]
  {
    hide AfterLine, TrimSpace, RowsAre, Run, EvidenceCleared, Placed;
    var b := Born(W, R, t, seed);
    BornPlaced(W, R, t, seed);
    var taken := Run(W, R, b, [Enter(input), Open(1), Report(1), Take(1)]);
    FirstTaken(W, R, t, seed, input);
    RunBoth(W, R, b, [Enter(input), Open(1), Report(1), Take(1)], [Grant, Renew, Clear] + [Enter(input)]);
    RunBoth(W, R, taken, [Grant, Renew, Clear], [Enter(input)]);
    RestartedUnder(W, R, taken);
    Single(W, R, Run(W, R, taken, [Grant, Renew, Clear]), Enter(input));
    RestartIsFresh(W, seed, taken.live.session);
  }

  /** The same line after the restart makes the same event: then the late save does no harm. */
  lemma SameLineFits(W: World, R: Settings, t: Tables, seed: int, input: string)
    requires Setting(W, R, t, input)
    ensures Placed(Born(W, R, t, seed).live.session)
    ensures var s := Run(W, R, Born(W, R, t, seed), AgainSteps(input));
            && Placed(s.live.session) && SavesLate(s, Save(1)) && !Harmful(W, s, Save(1))
            && Next(W, R, s, Save(1)).tables.evidence != s.tables.evidence && Prefix(W, Next(W, R, s, Save(1)))
  {
    hide AfterLine, TrimSpace, RowsAre, Run, EvidenceCleared, EvidenceSaved, Placed, AgainSteps;
    LineAgain(W, R, t, seed, input);
    FirstLine(W, seed, input);
    var log := AfterLine(W, NewSession(W, seed), input).0.log;
    var t0 := Born(W, R, t, seed).tables;
    OneRow(W, t0, log.events[0]);
    var after := Next(W, R, Run(W, R, Born(W, R, t, seed), AgainSteps(input)), Save(1));
    assert log.events[..1] == [log.events[0]];
    assert RowsUpTo(W, after.tables, after.live.session.log, 1);
    RowAppears(W, t0, log.events[0]);
  }

  lemma RestartIsFresh(W: World, seed: int, s: Session)
    requires W.Sane() && s.initial == W.boot(seed)
    ensures Restarted(s) == NewSession(W, seed)
  {}

  lemma RowAppears(W: World, t: Tables, e: Event)
    requires e.sessionID == W.id
    ensures (W.id, e.sequence) in EvidenceSaved(EvidenceCleared(t, W.id), e).evidence
    ensures (W.id, e.sequence) !in EvidenceCleared(t, W.id).evidence
  {}

  // ---- a call that the clear of its own restart overtakes ----

  /** Two lines behind a restart whose clear comes while they are being saved. */
  function GapSteps(input: string): seq<Step> {
    [Grant, Renew, Enter(input), Enter(input)] + ([Open(1), Report(1), Take(1), Save(1)] + [Clear, Save(1)])
  }

  lemma TwoLines(W: World, R: Settings, t: Tables, seed: int, input: string)
    requires Setting(W, R, t, input)
    ensures Placed(Born(W, R, t, seed).live.session)
    ensures var b := Born(W, R, t, seed); var s := Run(W, R, b, [Grant, Renew, Enter(input), Enter(input)]);
            && Placed(s.live.session) && Ours(W, s.live.session.log) && Chained(W, s.live.session.log.events)
            && |s.live.session.log.events| == 2 && s.tables == b.tables && s.uncleared == 1 && s.clears == 0 && s.jobs == map[]
  {
    hide AfterLine, TrimSpace, RowsAre, Run, Placed, Wellformed;
    var b := Born(W, R, t, seed);
    BornPlaced(W, R, t, seed);
    Four(W, R, b, Grant, Renew, Enter(input), Enter(input));
    var renewed := Next(W, R, Next(W, R, b, Grant), Renew);
    EmptyIsOurs(W);
    NextLine(W, renewed.live.session, input);
    NextLine(W, Next(W, R, renewed, Enter(input)).live.session, input);
  }

  lemma TwoSteps(W: World, R: Settings, s: Shared, a: Step, b: Step)
    requires W.Sane() && Placed(s.live.session)
    ensures Run(W, R, s, [a, b]) == Next(W, R, Next(W, R, s, a), b)
  {
    hide Next, Placed;
    assert [a, b] == [a] + [b];
    RunCons(W, R, s, a, [b]);
    Single(W, R, Next(W, R, s, a), b);
  }

  /** The first row is cleared and the second saved behind it: no call took its events
      before the restart, and still the rows are no prefix. Recovery refuses them. */
  lemma ClearLeavesGap(W: World, R: Settings, t: Tables, seed: int, input: string, stamp: int)
    requires Setting(W, R, t, input)
    ensures Placed(Born(W, R, t, seed).live.session)
    ensures var s := Run(W, R, Born(W, R, t, seed), GapSteps(input));
            && Quiet(s) && |s.live.session.log.events| == 2 && !Prefix(W, s)
            && Recover(W, R, s.tables, stamp) == Lost
  {
    hide AfterLine, TrimSpace, RowsAre, Run, Placed, EvidenceCleared, EvidenceSaved, Recover;
    var b := Born(W, R, t, seed);
    TwoLines(W, R, t, seed, input);
    var two := Run(W, R, b, [Grant, Renew, Enter(input), Enter(input)]);
    RunBoth(W, R, b, [Grant, Renew, Enter(input), Enter(input)], [Open(1), Report(1), Take(1), Save(1)] + [Clear, Save(1)]);
    Four(W, R, two, Open(1), Report(1), Take(1), Save(1));
    RunBoth(W, R, two, [Open(1), Report(1), Take(1), Save(1)], [Clear, Save(1)]);
    var half := Run(W, R, two, [Open(1), Report(1), Take(1), Save(1)]);
    TwoSteps(W, R, half, Clear, Save(1));
    var s := Run(W, R, half, [Clear, Save(1)]);
    var e := two.live.session.log.events[1];
    assert s.tables == EvidenceSaved(EvidenceCleared(half.tables, W.id), e);
    SecondRowOnly(W, half.tables, e);
    if Prefix(W, s) {
      var m: nat :| RowsUpTo(W, s.tables, s.live.session.log, m);
      RowOfPrefix(W, s, m, 1);
      RowOfPrefix(W, s, m, 2);
    }
    LoneRowIsLost(W, R, s.tables, e, stamp);
  }

  lemma SecondRowOnly(W: World, t: Tables, e: Event)
    requires e.sessionID == W.id && e.sequence == 2
    ensures var u := EvidenceSaved(EvidenceCleared(t, W.id), e);
            && (forall n: nat :: (W.id, n) in u.evidence <==> n == 2) && u.evidence[(W.id, 2)] == e
  {}

  lemma LoneRowIsLost(W: World, R: Settings, t: Tables, e: Event, stamp: int)
    requires W.Sane() && e.sequence == 2
    requires (forall n: nat :: (W.id, n) in t.evidence <==> n == 2) && t.evidence[(W.id, 2)] == e
    ensures Recover(W, R, t, stamp) == Lost
  {
    hide RunLines, Commands, InRange;
    var ns := Numbers(t, W.id);
    forall n: nat ensures n in ns <==> n in [2] { InNumbers(t, W.id, n); }
    AscendingUnique(Ascending(ns), [2]);
    assert Loaded(t, W.id) == [e];
    assert !Linked(W.hashing, [e], 0);
  }

  // ---- the counters ----

  /** A call that has read the counter, a whole restart request, and then the call's last statement. */
  function ForgetfulSteps(): seq<Step> {
    [Open(1), Report(1), Take(1)] + ([Count(1), Look(1), Grant] + ([Renew, Clear] + (PersistSteps(2, 0) + [Close(1)])))
  }

  lemma CountNoted(W: World, R: Settings, s: Shared)
    requires W.Sane() && Placed(s.live.session) && R.allowRestart && s.live.restarts == 0 && s.granted == 0
    requires IsTaken(s, 1) && !CanSave(s, 1)
    ensures Run(W, R, s, [Count(1), Look(1), Grant])
         == s.(live := s.live.(restarts := 1), granted := 1, jobs := s.jobs[1 := Closing(s.jobs[1].judge, 0, s.live.session.lab.submitted)])
  {
    hide Placed, Run;
    Three(W, R, s, Count(1), Look(1), Grant);
  }

  lemma TakenAt(W: World, R: Settings, s: Shared)
    requires W.Sane() && Placed(s.live.session) && W.id in s.tables.sessions
    ensures Run(W, R, s, [Open(1), Report(1), Take(1)])
         == s.(jobs := s.jobs[1 := Taken(s.live.judge, s.live.session.log.events, 0, s.clears)])
  {
    hide Placed, Run;
    Three(W, R, s, Open(1), Report(1), Take(1));
  }

  lemma BeforeForgetting(W: World, R: Settings, t: Tables, seed: int)
    requires W.Sane() && W.id !in t.sessions && RowsAre(t, W.id, []) && R.allowRestart
    ensures Placed(Born(W, R, t, seed).live.session)
    ensures var b := Born(W, R, t, seed);
            var s := Run(W, R, Run(W, R, b, [Open(1), Report(1), Take(1)]), [Count(1), Look(1), Grant]);
            && s.live == b.live.(restarts := 1) && s.granted == 1 && s.uncleared == 0 && s.tables == b.tables
            && s.jobs == map[1 := Closing(UNJUDGED, 0, false)]
  {
    hide Placed, Run, RowsAre;
    var b := Born(W, R, t, seed);
    BornPlaced(W, R, t, seed);
    TakenAt(W, R, b);
    CountNoted(W, R, Run(W, R, b, [Open(1), Report(1), Take(1)]));
  }

  /** The last call's closing statement, behind a whole restart. */
  lemma ClosedLast(W: World, R: Settings, s: Shared)
    requires W.Sane() && Placed(s.live.session) && s.granted == 1 && s.uncleared == 0
    requires s.jobs == map[1 := Closing(UNJUDGED, 0, false)]
    ensures var u := Run(W, R, s, [Renew, Clear] + (PersistSteps(2, 0) + [Close(1)]));
            && u.live == Live(Restarted(s.live.session), s.live.restarts, UNJUDGED) && u.uncleared == 0
            && RowsAre(u.tables, W.id, []) && W.id in u.tables.sessions
            && W.id in u.tables.meta && u.tables.meta[W.id] == Meta(0, 0, "", false, false)
  {
    hide Placed, Run, RowsAre, EvidenceCleared, PersistSteps, SaveAll;
    RunBoth(W, R, s, [Renew, Clear], PersistSteps(2, 0) + [Close(1)]);
    TwoSteps(W, R, s, Renew, Clear);
    var cleared := Run(W, R, s, [Renew, Clear]);
    RunBoth(W, R, cleared, PersistSteps(2, 0), [Close(1)]);
    PersistRun(W, R, cleared, 2);
    var saved := Run(W, R, cleared, PersistSteps(2, 0));
    assert saved.jobs == map[1 := Closing(UNJUDGED, 0, false)];
    Single(W, R, saved, Close(1));
    ClearedRows(s.tables, W.id);
    NothingSaved(cleared.tables, W.id, R.team, R.scenario, cleared.live.session.started);
    MetaApart(SaveAll(SessionSaved(cleared.tables, W.id, R.team, R.scenario, cleared.live.session.started), []), W.id, MetaOf(cleared.live), []);
    MetaApart(saved.tables, W.id, Meta(0, 0, "", false, false), []);
  }

  lemma NothingRecovered(W: World, R: Settings, t: Tables, stamp: int)
    requires W.Sane() && RowsAre(t, W.id, []) && W.id in t.sessions && W.id in t.meta
    ensures Recover(W, R, t, stamp).Back? && Recover(W, R, t, stamp).live.restarts == t.meta[W.id].restarts
  {
    hide RowsAre, Replayed, Loaded, InRange;
    LoadGivesRows(t, W.id, []);
    NothingVerifies(W);
  }

  /** An old call that closes last brings an old count back: recovery then grants the restart again. */
  lemma RestartForgotten(W: World, R: Settings, t: Tables, seed: int, stamp: int)
    requires W.Sane() && W.id !in t.sessions && RowsAre(t, W.id, []) && R.allowRestart
    ensures Placed(Born(W, R, t, seed).live.session)
    ensures var s := Run(W, R, Born(W, R, t, seed), ForgetfulSteps());
            && s.live.restarts == 1 && s.uncleared == 0 && RowsAre(s.tables, W.id, s.live.session.log.events)
            && Recover(W, R, s.tables, stamp).Back? && Recover(W, R, s.tables, stamp).live.restarts == 0
  {
    hide Placed, Run, RowsAre, PersistSteps, Recover;
    var b := Born(W, R, t, seed);
    BornPlaced(W, R, t, seed);
    BeforeForgetting(W, R, t, seed);
    var one, two := [Open(1), Report(1), Take(1)], [Count(1), Look(1), Grant];
    var rest := [Renew, Clear] + (PersistSteps(2, 0) + [Close(1)]);
    RunBoth(W, R, b, one, two + rest);
    RunBoth(W, R, Run(W, R, b, one), two, rest);
    ClosedLast(W, R, Run(W, R, Run(W, R, b, one), two));
    NothingRecovered(W, R, Run(W, R, b, ForgetfulSteps()).tables, stamp);
  }

  // ---- the judging ----

  /** A call that has taken its report, a whole judging request, and then the call's last steps. */
  function UnjudgingSteps(score: int, notes: string): seq<Step> {
    [Open(1), Report(1), Take(1)] + ([Grade(score, notes)] + (PersistSteps(2, 0) + [Count(1), Look(1), Close(1)]))
  }

  /** The last steps of a call that took an empty chain. */
  lemma ClosesStale(W: World, R: Settings, s: Shared, judge: Judge)
    requires W.Sane() && Placed(s.live.session) && s.jobs == map[1 := Taken(judge, [], 0, s.clears)]
    ensures Run(W, R, s, [Count(1), Look(1), Close(1)])
         == s.(tables := MetaSaved(s.tables, W.id, MetaOf(s.live.(judge := judge))), jobs := map[])
  {
    hide Placed, Run;
    Three(W, R, s, Count(1), Look(1), Close(1));
  }

  lemma PersistedEmpty(W: World, R: Settings, t: Tables, live: Live)
    requires RowsAre(t, W.id, []) && live.session.log.events == []
    ensures var u := Persisted(W, R, t, live); RowsAre(u, W.id, []) && W.id in u.sessions
  {
    hide RowsAre;
    NothingSaved(t, W.id, R.team, R.scenario, live.session.started);
    MetaApart(SaveAll(SessionSaved(t, W.id, R.team, R.scenario, live.session.started), []), W.id, MetaOf(live), []);
  }

  /** Between the report of a call and its last statement a whole judging request is carried
      out and persisted. No call is left under way, the rows are exactly the chain, and still
      recovery brings the session back unjudged. */
  lemma JudgingForgotten(W: World, R: Settings, t: Tables, seed: int, score: int, notes: string, stamp: int)
    requires W.Sane() && W.id !in t.sessions && RowsAre(t, W.id, []) && InRange(R, score)
    ensures Placed(Born(W, R, t, seed).live.session)
    ensures var s := Run(W, R, Born(W, R, t, seed), UnjudgingSteps(score, notes));
            && s.live.judge == Judge(score, notes, true) && s.jobs == map[] && Quiet(s)
            && RowsAre(s.tables, W.id, s.live.session.log.events)
            && Recover(W, R, s.tables, stamp).Back? && Recover(W, R, s.tables, stamp).live.judge == UNJUDGED
  {
    hide Placed, Run, RowsAre, PersistSteps, Persisted, Recover, MetaOf;
    var b := Born(W, R, t, seed);
    BornPlaced(W, R, t, seed);
    RunBoth(W, R, b, [Open(1), Report(1), Take(1)], [Grade(score, notes)] + (PersistSteps(2, 0) + [Count(1), Look(1), Close(1)]));
    TakenAt(W, R, b);
    var taken := Run(W, R, b, [Open(1), Report(1), Take(1)]);
    assert b.jobs[1 := Taken(UNJUDGED, [], 0, 0)] == map[1 := Taken(UNJUDGED, [], 0, 0)];
    RunCons(W, R, taken, Grade(score, notes), PersistSteps(2, 0) + [Count(1), Look(1), Close(1)]);
    var graded := Next(W, R, taken, Grade(score, notes));
    RunBoth(W, R, graded, PersistSteps(2, 0), [Count(1), Look(1), Close(1)]);
    PersistRun(W, R, graded, 2);
    var saved := Run(W, R, graded, PersistSteps(2, 0));
    assert saved.jobs == map[1 := Taken(UNJUDGED, [], 0, 0)];
    ClosesStale(W, R, saved, UNJUDGED);
    CreatedEmpty(W, R, t, seed);
    PersistedEmpty(W, R, b.tables, graded.live);
    MetaApart(saved.tables, W.id, MetaOf(saved.live.(judge := UNJUDGED)), []);
    NothingJudged(W, R, Run(W, R, b, UnjudgingSteps(score, notes)).tables, saved.live.(judge := UNJUDGED), stamp);
  }

  lemma CreatedEmpty(W: World, R: Settings, t: Tables, seed: int)
    requires W.Sane() && RowsAre(t, W.id, [])
    ensures RowsAre(Born(W, R, t, seed).tables, W.id, [])
  {
    hide Placed;
  }

  lemma NothingJudged(W: World, R: Settings, t: Tables, live: Live, stamp: int)
    requires W.Sane() && RowsAre(t, W.id, []) && W.id in t.sessions && W.id in t.meta
    requires t.meta[W.id] == MetaOf(live) && live.judge == UNJUDGED
    ensures Recover(W, R, t, stamp).Back? && Recover(W, R, t, stamp).live.judge == UNJUDGED
  {
    hide RowsAre, Replayed, Loaded, InRange;
    LoadGivesRows(t, W.id, []);
    NothingVerifies(W);
  }

  lemma GradedAndTaken(W: World, R: Settings, s: Shared, score: int, notes: string)
    requires W.Sane() && Placed(s.live.session) && InRange(R, score) && W.id in s.tables.sessions && s.jobs == map[]
    ensures Run(W, R, s, [Grade(score, notes), Open(1), Report(1), Take(1)])
         == s.(live := s.live.(judge := Judge(score, notes, true)),
               jobs := map[1 := Taken(Judge(score, notes, true), s.live.session.log.events, 0, s.clears)])
  {
    hide Placed, Run;
    Four(W, R, s, Grade(score, notes), Open(1), Report(1), Take(1));
    assert s.jobs[1 := Taken(Judge(score, notes, true), s.live.session.log.events, 0, s.clears)]
        == map[1 := Taken(Judge(score, notes, true), s.live.session.log.events, 0, s.clears)];
  }

  /** Grades between the report and the last statement do no harm when the last of them is the
      reported one again. */
  lemma SameGradeFits(W: World, R: Settings, t: Tables, seed: int, score: int, notes: string, other: int, more: string)
    requires W.Sane() && W.id !in t.sessions && InRange(R, score) && InRange(R, other)
    ensures Placed(Born(W, R, t, seed).live.session)
    ensures var s := Run(W, R, Born(W, R, t, seed), [Grade(score, notes), Open(1), Report(1), Take(1)]
                                                    + ([Grade(other, more), Grade(score, notes)] + [Count(1), Look(1), Close(1)]));
            s.jobs == map[] && W.id in s.tables.meta && s.tables.meta[W.id] == MetaOf(s.live)
  {
    hide Placed, Run, MetaOf;
    var b := Born(W, R, t, seed);
    BornPlaced(W, R, t, seed);
    var one, two, three := [Grade(score, notes), Open(1), Report(1), Take(1)], [Grade(other, more), Grade(score, notes)], [Count(1), Look(1), Close(1)];
    RunBoth(W, R, b, one, two + three);
    GradedAndTaken(W, R, b, score, notes);
    var taken := Run(W, R, b, one);
    RunBoth(W, R, taken, two, three);
    TwoSteps(W, R, taken, Grade(other, more), Grade(score, notes));
    var graded := Run(W, R, taken, two);
    assert graded == taken;
    ClosesStale(W, R, graded, Judge(score, notes, true));
  }

  // ---- the submitted flag ----

  /** A line that submits, and a call that sees it submitted; then the restart that a request
      had asked for before the line, and the call's last statement. */
  function ResubmittingSteps(input: string): seq<Step> {
    [Enter(input), Open(1), Report(1), Take(1)]
    + ([Save(1), Grant, Count(1)] + ([Look(1), Renew, Clear] + (PersistSteps(2, 0) + [Close(1)])))
  }

  lemma FlagSeen(W: World, R: Settings, s: Shared)
    requires W.Sane() && Placed(s.live.session) && R.allowRestart && s.live.restarts == 0 && s.granted == 0 && s.uncleared == 0
    requires |s.live.session.log.events| == 1 && s.jobs == map[1 := Taken(UNJUDGED, s.live.session.log.events, 0, 0)]
    ensures var u := Run(W, R, s, [Save(1), Grant, Count(1)]);
            && u.live == s.live.(restarts := 1) && u.granted == 1 && u.uncleared == 0 && u.clears == s.clears
            && u.tables.sessions == s.tables.sessions && u.jobs == map[1 := Counted(UNJUDGED, 1)]
  {
    hide Placed, Run;
    Three(W, R, s, Save(1), Grant, Count(1));
  }

  lemma RestartedBehind(W: World, R: Settings, s: Shared)
    requires W.Sane() && Placed(s.live.session) && s.granted == 1 && s.uncleared == 0 && s.jobs == map[1 := Counted(UNJUDGED, 1)]
    ensures var u := Run(W, R, s, [Look(1), Renew, Clear]);
            && u.live == Live(Restarted(s.live.session), s.live.restarts, UNJUDGED) && u.tables == EvidenceCleared(s.tables, W.id)
            && u.uncleared == 0 && u.jobs == map[1 := Closing(UNJUDGED, 1, s.live.session.lab.submitted)]
  {
    hide Placed, Run;
    Three(W, R, s, Look(1), Renew, Clear);
  }

  lemma NothingSubmitted(W: World, R: Settings, t: Tables, stamp: int)
    requires W.Sane() && RowsAre(t, W.id, []) && W.id in t.sessions && W.id in t.meta && t.meta[W.id].submitted
    ensures Recover(W, R, t, stamp).Back? && Recover(W, R, t, stamp).live.session.lab.submitted
  {
    hide RowsAre, Replayed, Loaded, InRange;
    LoadGivesRows(t, W.id, []);
    NothingVerifies(W);
  }

  /** The session was restarted and is open, its chain is empty and so are its rows; recovery
      brings it back as submitted. */
  lemma SubmissionReturns(W: World, R: Settings, t: Tables, seed: int, input: string, stamp: int)
    requires Setting(W, R, t, input) && AfterLine(W, NewSession(W, seed), input).0.lab.submitted
    ensures Placed(Born(W, R, t, seed).live.session)
    ensures var s := Run(W, R, Born(W, R, t, seed), ResubmittingSteps(input));
            && !s.live.session.lab.submitted && s.jobs == map[] && Quiet(s)
            && RowsAre(s.tables, W.id, s.live.session.log.events)
            && Recover(W, R, s.tables, stamp).Back? && Recover(W, R, s.tables, stamp).live.session.lab.submitted
  {
    hide AfterLine, TrimSpace, Placed, Run, RowsAre, PersistSteps, Persisted, Recover, EvidenceCleared;
    var b := Born(W, R, t, seed);
    BornPlaced(W, R, t, seed);
    var one, two, three, four := [Enter(input), Open(1), Report(1), Take(1)], [Save(1), Grant, Count(1)], [Look(1), Renew, Clear], PersistSteps(2, 0);
    RunBoth(W, R, b, one, two + (three + (four + [Close(1)])));
    FirstTaken(W, R, t, seed, input);
    FirstLine(W, seed, input);
    var taken := Run(W, R, b, one);
    RunBoth(W, R, taken, two, three + (four + [Close(1)]));
    FlagSeen(W, R, taken);
    var seen := Run(W, R, taken, two);
    RunBoth(W, R, seen, three, four + [Close(1)]);
    RestartedBehind(W, R, seen);
    var renewed := Run(W, R, seen, three);
    RunBoth(W, R, renewed, four, [Close(1)]);
    PersistRun(W, R, renewed, 2);
    var saved := Run(W, R, renewed, four);
    assert saved.jobs == map[1 := Closing(UNJUDGED, 1, true)];
    Single(W, R, saved, Close(1));
    ClearedRows(seen.tables, W.id);
    PersistedEmpty(W, R, renewed.tables, renewed.live);
    MetaApart(saved.tables, W.id, Meta(1, 0, "", false, true), []);
    NothingSubmitted(W, R, Run(W, R, b, ResubmittingSteps(input)).tables, stamp);
  }

  lemma NothingVerifies(W: World)
    ensures Verified(W.hashing, [])
  {}

  lemma NothingSaved(t: Tables, id: string, team: string, scenario: string, created: int)
    requires RowsAre(t, id, [])
    ensures var u := SaveAll(SessionSaved(t, id, team, scenario, created), []); RowsAre(u, id, []) && id in u.sessions
  {}

  lemma MetaApart(t: Tables, id: string, meta: Meta, events: seq<Event>)
    ensures RowsAre(MetaSaved(t, id, meta), id, events) <==> RowsAre(t, id, events)
  {}
}
