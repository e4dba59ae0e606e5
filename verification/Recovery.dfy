/** Persisting and recovering one session (internal/server/server.go): what the rows
    are after every request that persists, and what Recover rebuilds from them.
    Each request is one atomic step. */
module Recovery {
  import opened Evidence
  import opened Interpreter
  import opened Session
  import opened Store
  import Progress

  datatype Judge = Judge(score: int, notes: string, judged: bool)

  const UNJUDGED := Judge(0, "", false)

  /** A session of the server, with the parts that no event records. */
  datatype Live = Live(session: Session, restarts: int, judge: Judge)

  /** The event's settings, and who the session belongs to. */
  datatype Settings = Settings(team: string, scenario: string, allowRestart: bool, maxRestarts: int, judgeMaximum: int)

  datatype Request =
    | Line(input: string)             // command, hint, note, check and submit requests
    | Terminal(input: string)         // a line of the terminal, which does not persist
    | RestartSession
    | Judging(score: int, notes: string)

  // ---- steps ----

  function MetaOf(live: Live): Meta {
    Meta(live.restarts, live.judge.score, live.judge.notes, live.judge.judged, live.session.lab.submitted)
  }

  function SaveAll(t: Tables, events: seq<Event>): Tables
    decreases |events|
  {
    if events == [] then t else SaveAll(EvidenceSaved(t, events[0]), events[1..])
  }

  function Persisted(W: World, R: Settings, t: Tables, live: Live): Tables {
    var s := live.session;
    MetaSaved(SaveAll(SessionSaved(t, W.id, R.team, R.scenario, s.started), s.log.events), W.id, MetaOf(live))
  }

  /** createSession's inserts. */
  function Created(W: World, R: Settings, t: Tables, seed: int): (Tables, Live)
    requires W.Sane()
  {
    (MetaSaved(SessionSaved(t, W.id, R.team, R.scenario, seed), W.id, Meta(0, 0, "", false, false)),
     Live(NewSession(W, seed), 0, UNJUDGED))
  }

  predicate MayRestart(R: Settings, live: Live) {
    !live.session.lab.submitted && R.allowRestart && !(R.maxRestarts > 0 && live.restarts >= R.maxRestarts)
  }

  function Handled(W: World, R: Settings, t: Tables, live: Live, r: Request): (Tables, Live)
    requires W.Sane() && Placed(live.session)
  {
    match r
    case Line(input) =>
      var after := live.(session := AfterLine(W, live.session, input).0);
      (Persisted(W, R, t, after), after)
    case Terminal(input) => (t, live.(session := AfterLine(W, live.session, input).0))
    case RestartSession =>
      if !MayRestart(R, live) then (t, live)
      else
        var after := Live(Restarted(live.session), live.restarts + 1, UNJUDGED);
        (Persisted(W, R, EvidenceCleared(t, W.id), after), after)
    case Judging(score, notes) =>
      if score < 0 || score > R.judgeMaximum then (t, live)
      else
        var after := live.(judge := Judge(score, notes, true));
        (Persisted(W, R, t, after), after)
  }

  method PersistSession(db: Database, W: World, R: Settings, live: Live)
    modifies db
    ensures db.View() == Persisted(W, R, old(db.View()), live)
  {
    var s := live.session;
    db.SaveSession(W.id, R.team, R.scenario, s.started);
    ghost var start := db.View();
    for i := 0 to |s.log.events|
      invariant SaveAll(db.View(), s.log.events[i..]) == SaveAll(start, s.log.events)
    {
      assert s.log.events[i..][0] == s.log.events[i] && s.log.events[i..][1..] == s.log.events[i + 1..];
      db.SaveEvidence(s.log.events[i]);
    }
    assert s.log.events[|s.log.events|..] == [];
    db.SaveSessionMeta(W.id, MetaOf(live));
  }

  /** The persisting half of the request handlers: what a restart does to the rows before they
      are saved again, and which requests save at all. */
  method Handle(db: Database, W: World, R: Settings, live: Live, r: Request) returns (after: Live)
    requires W.Sane() && Placed(live.session)
    modifies db
    ensures (db.View(), after) == Handled(W, R, old(db.View()), live, r)
  {
    hide AfterLine, Placed, Persisted, EvidenceCleared, Restarted;
    after := live;
    match r
    case Line(input) =>
      after := live.(session := AfterLine(W, live.session, input).0);
      PersistSession(db, W, R, after);
    case Terminal(input) =>
      after := live.(session := AfterLine(W, live.session, input).0);
    case RestartSession =>
      if MayRestart(R, live) {
        after := Live(Restarted(live.session), live.restarts + 1, UNJUDGED);
        db.ClearEvidence(W.id);
        PersistSession(db, W, R, after);
      }
    case Judging(score, notes) =>
      if InRange(R, score) {
        after := live.(judge := Judge(score, notes, true));
        PersistSession(db, W, R, after);
      }
  }

  // ---- the rows ----

  /** Every event of the log belongs to the session and verifies. */
  ghost predicate Ours(W: World, log: Log) {
    Wellformed(W.hashing, log) && forall e | e in log.events :: e.sessionID == W.id
  }

  /** The table has the first `m` events of the log, and nothing else of this session. */
  ghost predicate RowsUpTo(W: World, t: Tables, log: Log, m: nat) {
    m <= |log.events| && RowsAre(t, W.id, log.events[..m])
  }

  lemma SavedOne(t: Tables, id: string, events: seq<Event>, e: Event)
    requires RowsAre(t, id, events) && e.sessionID == id && e.sequence == |events| + 1
    ensures RowsAre(EvidenceSaved(t, e), id, events + [e])
  {}

  lemma SavedAgain(t: Tables, id: string, events: seq<Event>, i: nat)
    requires RowsAre(t, id, events) && i < |events| && events[i].sessionID == id && events[i].sequence == i + 1
    ensures RowsAre(EvidenceSaved(t, events[i]), id, events)
  {}

  /** Saving the events from the `i`-th on, when the rows are the first `m`. */
  lemma {:induction false} SaveAllRows(W: World, t: Tables, log: Log, i: nat, m: nat)
    requires Ours(W, log) && i <= m && RowsUpTo(W, t, log, m)
    ensures RowsUpTo(W, SaveAll(t, log.events[i..]), log, |log.events|)
    decreases |log.events| - i
  {
    var events := log.events;
    if i == |events| {
      assert events[i..] == [];
    } else {
      var e := events[i];
      assert events[i..][0] == e && events[i..][1..] == events[i + 1..];
      assert Linked(W.hashing, events, i) && e in events;
      if i < m {
        assert events[..m][i] == e;
        SavedAgain(t, W.id, events[..m], i);
        SaveAllRows(W, EvidenceSaved(t, e), log, i + 1, m);
      } else {
        SavedOne(t, W.id, events[..m], e);
        assert events[..m] + [e] == events[..m + 1];
        SaveAllRows(W, EvidenceSaved(t, e), log, i + 1, m + 1);
      }
    }
  }

  lemma {:induction false} SaveAllKeeps(t: Tables, events: seq<Event>, id: string)
    requires forall e | e in events :: e.sessionID == id
    ensures var u := SaveAll(t, events);
            u.sessions == t.sessions && u.meta == t.meta && u.tokens == t.tokens && OthersSame(t, u, id)
    decreases |events|
  {
    if events != [] {
      assert events[0] in events;
      SaveAllKeeps(EvidenceSaved(t, events[0]), events[1..], id);
    }
  }

  // ---- the invariant ----

  predicate InRange(R: Settings, score: int) { 0 <= score <= R.judgeMaximum }

  /** What holds between requests: the rows lag behind the log at most by terminal lines. */
  ghost predicate Current(W: World, R: Settings, t: Tables, live: Live, seed: int, m: nat) {
    && Placed(live.session) && Ours(W, live.session.log) && RowsUpTo(W, t, live.session.log, m)
    && W.id in t.sessions && t.sessions[W.id].created == seed
    && (if live.judge.judged then InRange(R, live.judge.score) else live.judge == UNJUDGED)
  }

  /** The rows are exactly 1..n of the chain, and the other columns are up to date. */
  ghost predicate Saved(W: World, R: Settings, t: Tables, live: Live, seed: int) {
    && Current(W, R, t, live, seed, |live.session.log.events|)
    && W.id in t.meta && t.meta[W.id] == MetaOf(live)
  }

  lemma PersistedRows(W: World, R: Settings, t: Tables, live: Live, seed: int, m: nat)
    requires Current(W, R, t, live, seed, m)
    ensures Saved(W, R, Persisted(W, R, t, live), live, seed)
    ensures OthersSame(t, Persisted(W, R, t, live), W.id)
  {
    hide Placed, InRange;
    var log := live.session.log;
    assert log.events[0..] == log.events;
    SaveAllRows(W, t, log, 0, m);
    SaveAllKeeps(t, log.events, W.id);
  }

  lemma LineIsOurs(W: World, s: Session, input: string)
    requires W.Sane() && Placed(s) && Ours(W, s.log)
    ensures var after := AfterLine(W, s, input).0;
            Ours(W, after.log) && s.log.events <= after.log.events
  {
    hide Execute, TrimSpace, Wellformed;
    LineVerified(W, s, input);
    LineRecorded(W, s, input);
  }

  lemma MoreEvents(W: World, t: Tables, log: Log, after: Log, m: nat)
    requires RowsUpTo(W, t, log, m) && log.events <= after.events
    ensures RowsUpTo(W, t, after, m)
  {
    assert after.events[..m] == log.events[..m];
  }

  lemma ClearedRows(t: Tables, id: string)
    ensures RowsAre(EvidenceCleared(t, id), id, []) && OthersSame(t, EvidenceCleared(t, id), id)
  {}

  lemma RestartPlaced(W: World, s: Session)
    requires Placed(s)
    ensures Placed(Restarted(s)) && Ours(W, Restarted(s).log)
  {}

  /** The request is carried out and persisted. */
  predicate Accepted(R: Settings, live: Live, r: Request) {
    match r
    case Line(_) => true
    case Terminal(_) => false
    case RestartSession => MayRestart(R, live)
    case Judging(score, _) => InRange(R, score)
  }

  /** Every request keeps the invariant; one that persists leaves exactly the chain's
      rows and the matching counters; other sessions' rows never change. */
  lemma RequestKeepsRows(W: World, R: Settings, t: Tables, live: Live, r: Request, seed: int, m: nat) returns (k: nat)
    requires W.Sane() && Current(W, R, t, live, seed, m)
    ensures var (u, after) := Handled(W, R, t, live, r);
            && Current(W, R, u, after, seed, k) && OthersSame(t, u, W.id)
            && (Accepted(R, live, r) ==> Saved(W, R, u, after, seed))
  {
    hide AfterLine, Placed, Persisted;
    var (u, after) := Handled(W, R, t, live, r);
    k := m;
    match r
    case Line(input) =>
      LineIsOurs(W, live.session, input);
      MoreEvents(W, t, live.session.log, after.session.log, m);
      PersistedRows(W, R, t, after, seed, m);
      k := |after.session.log.events|;
    case Terminal(input) =>
      LineIsOurs(W, live.session, input);
      MoreEvents(W, t, live.session.log, after.session.log, m);
    case RestartSession =>
      if MayRestart(R, live) {
        ClearedRows(t, W.id);
        RestartPlaced(W, live.session);
        PersistedRows(W, R, EvidenceCleared(t, W.id), after, seed, 0);
        k := 0;
      }
    case Judging(score, notes) =>
      if InRange(R, score) {
        PersistedRows(W, R, t, after, seed, m);
        k := |after.session.log.events|;
      }
  }

  // ---- recovery ----

  datatype Recovered = Lost | Back(live: Live)

  /** Recover, for one record; `stamp` is the wall-clock time of the submission. */
  ghost function Recover(W: World, R: Settings, t: Tables, stamp: int): Recovered
    requires W.Sane()
  {
    var events := Loaded(t, W.id);
    if W.id !in t.sessions || !Verified(W.hashing, events) then Lost
    else
      var session := if events == [] then NewSession(W, t.sessions[W.id].created) else Replayed(W, events);
      if W.id !in t.meta then Back(Live(session, 0, UNJUDGED))
      else
        var meta := t.meta[W.id];
        var judge := if meta.judged && InRange(R, meta.judgeScore) then Judge(meta.judgeScore, meta.judgeNotes, true) else UNJUDGED;
        Back(Live(if meta.submitted then Stamped(session, stamp) else session,
                  meta.restarts, judge))
  }

  /** RestoreSubmission. */
  function Stamped(s: Session, stamp: int): Session { s.(lab := s.lab.(submitted := true, submittedAt := stamp)) }

  /** The session is what some lines make of a fresh one. */
  ghost predicate Reached(W: World, seed: int, s: Session)
    requires W.Sane()
  {
    exists lines :: From(W, seed, s, lines)
  }

  ghost predicate From(W: World, seed: int, s: Session, lines: seq<string>)
    requires W.Sane()
  {
    s == RunLines(W, NewSession(W, seed), lines)
  }

  lemma RequestReaches(W: World, R: Settings, t: Tables, live: Live, r: Request, seed: int)
    requires W.Sane() && Placed(live.session) && Reached(W, seed, live.session)
    ensures Reached(W, seed, Handled(W, R, t, live, r).1.session)
  {
    hide AfterLine, RunLines, Persisted, MayRestart;
    var lines :| From(W, seed, live.session, lines);
    var after := Handled(W, R, t, live, r).1.session;
    match r
    case Line(input) =>
      RunOneMore(W, NewSession(W, seed), lines, input);
      assert From(W, seed, after, lines + [input]);
    case Terminal(input) =>
      RunOneMore(W, NewSession(W, seed), lines, input);
      assert From(W, seed, after, lines + [input]);
    case RestartSession =>
      RunNoLines(W, NewSession(W, seed));
      assert From(W, seed, after, []) || From(W, seed, after, lines);
    case Judging(_, _) => assert From(W, seed, after, lines);
  }

  lemma RunNoLines(W: World, s: Session)
    requires W.Sane() && Placed(s)
    ensures RunLines(W, s, []) == s
  {}

  /** A session without events is a fresh one. */
  lemma NoEventsFresh(W: World, seed: int, s: Session)
    requires W.Sane() && Reached(W, seed, s) && s.log.events == []
    ensures s == NewSession(W, seed)
  {
    var lines :| From(W, seed, s, lines);
    LogDeterminesSession(W, NewSession(W, seed), lines);
    assert s.log.events[0..] == [];
    RunNoLines(W, NewSession(W, seed));
  }

  /** Everything but the submission's time, which recovery takes from the wall clock. */
  function Timeless(live: Live, stamp: int): Live {
    if live.session.lab.submitted then live.(session := Stamped(live.session, stamp)) else live
  }

  /** From saved rows recovery brings back chain, restarts and judging, and the whole
      session unless the chain's first line was rejected. */
  lemma RecoverSaved(W: World, R: Settings, t: Tables, live: Live, seed: int, stamp: int)
    requires W.Sane() && Saved(W, R, t, live, seed) && Reached(W, seed, live.session)
    ensures Recover(W, R, t, stamp).Back?
    ensures var back := Recover(W, R, t, stamp).live;
            var events := live.session.log.events;
            && back.session.log == live.session.log && back.restarts == live.restarts && back.judge == live.judge
            && (back == Timeless(live, stamp) <==> events == [] || !Rejected(events[0].command))
  {
    hide RunLines, Commands, Rejected, Verified, InRange;
    var s := live.session;
    var events := s.log.events;
    assert events[..|events|] == events;
    LoadGivesRows(t, W.id, events);
    var lines :| From(W, seed, s, lines);
    ReplayExact(W, seed, lines);
    OursVerified(W, s.log);
    if events == [] { NoEventsFresh(W, seed, s); }
    else { SeedsDiffer(W, seed, lines); }
  }

  lemma OursVerified(W: World, log: Log)
    requires Ours(W, log)
    ensures Verified(W.hashing, log.events) && log == Log(log.events, HeadOf(log.events))
  {}

  /** A replay that does not rebuild the session has another start. */
  lemma SeedsDiffer(W: World, seed: int, lines: seq<string>)
    requires W.Sane()
    ensures var s := RunLines(W, NewSession(W, seed), lines);
            Replayed(W, s.log.events) != s ==> Replayed(W, s.log.events).started != s.started
  {
    hide RunLines, Commands;
    var s := RunLines(W, NewSession(W, seed), lines);
    LogDeterminesSession(W, NewSession(W, seed), lines);
    assert s.log.events[0..] == s.log.events;
  }

  // ---- whole lives ----

  function Lives(W: World, R: Settings, t: Tables, live: Live, rs: seq<Request>): (r: (Tables, Live))
    requires W.Sane() && Placed(live.session)
    ensures Placed(r.1.session)
    decreases |rs|
  {
    if rs == [] then (t, live)
    else
      var (u, after) := Handled(W, R, t, live, rs[0]);
      Lives(W, R, u, after, rs[1..])
  }

  lemma {:induction false} LivesKeep(W: World, R: Settings, t: Tables, live: Live, rs: seq<Request>, seed: int, m: nat) returns (k: nat)
    requires W.Sane() && Current(W, R, t, live, seed, m) && Reached(W, seed, live.session)
    ensures var (u, after) := Lives(W, R, t, live, rs);
            Current(W, R, u, after, seed, k) && Reached(W, seed, after.session) && OthersSame(t, u, W.id)
    decreases |rs|
  {
    hide Handled, Current, Reached;
    k := m;
    if rs != [] {
      CurrentPlaced(W, R, t, live, seed, m);
      var (u, after) := Handled(W, R, t, live, rs[0]);
      var n := RequestKeepsRows(W, R, t, live, rs[0], seed, m);
      RequestReaches(W, R, t, live, rs[0], seed);
      k := LivesKeep(W, R, u, after, rs[1..], seed, n);
    }
  }

  lemma CurrentPlaced(W: World, R: Settings, t: Tables, live: Live, seed: int, m: nat)
    requires Current(W, R, t, live, seed, m)
    ensures Placed(live.session)
  {}

  lemma CreatedIsSaved(W: World, R: Settings, t: Tables, seed: int)
    requires W.Sane() && W.id !in t.sessions && RowsAre(t, W.id, [])
    ensures var (u, live) := Created(W, R, t, seed); Saved(W, R, u, live, seed) && Reached(W, seed, live.session)
  {
    RunNoLines(W, NewSession(W, seed));
    assert From(W, seed, NewSession(W, seed), []);
  }

  /** From creation through any requests, and once more after one that persists:
      the rows are exactly the chain, no other session's rows have changed, and
      recovery brings the session back as RecoverSaved says. */
  lemma PersistAndRecover(W: World, R: Settings, t: Tables, seed: int, rs: seq<Request>, last: Request, stamp: int)
    requires W.Sane() && W.id !in t.sessions && RowsAre(t, W.id, [])
    ensures var (t0, born) := Created(W, R, t, seed);
            var (t1, live) := Lives(W, R, t0, born, rs);
            var (t2, end) := Handled(W, R, t1, live, last);
            Accepted(R, live, last) ==>
              && RowsAre(t2, W.id, end.session.log.events) && OthersSame(t0, t2, W.id)
              && Recover(W, R, t2, stamp).Back?
              && var back := Recover(W, R, t2, stamp).live;
                 && back.session.log == end.session.log && back.restarts == end.restarts && back.judge == end.judge
                 && (back == Timeless(end, stamp) <==>
                       end.session.log.events == [] || !Rejected(end.session.log.events[0].command))
  {
    hide Handled, Lives, Created, Recover, Rejected, Reached, Accepted;
    var (t0, born) := Created(W, R, t, seed);
    CreatedIsSaved(W, R, t, seed);
    var m := LivesKeep(W, R, t0, born, rs, seed, |born.session.log.events|);
    var (t1, live) := Lives(W, R, t0, born, rs);
    var k := RequestKeepsRows(W, R, t1, live, last, seed, m);
    RequestReaches(W, R, t1, live, last, seed);
    var (t2, end) := Handled(W, R, t1, live, last);
    if Accepted(R, live, last) {
      RecoverSaved(W, R, t2, end, seed, stamp);
      assert end.session.log.events[..|end.session.log.events|] == end.session.log.events;
    }
  }

  // ---- submissions, restarts and grades over a life ----

  /** A submitted session stays submitted whatever is requested: it is never restarted, and its chain
      only grows. */
  lemma {:induction false} SubmittedStays(W: World, R: Settings, t: Tables, live: Live, rs: seq<Request>)
    requires W.Sane() && Placed(live.session) && Ours(W, live.session.log) && live.session.lab.submitted
    ensures var end := Lives(W, R, t, live, rs).1;
            end.session.lab.submitted && live.session.log.events <= end.session.log.events && end.restarts == live.restarts
    decreases |rs|
  {
    hide AfterLine, Placed, Ours, Persisted;
    if rs != [] {
      var (u, after) := Handled(W, R, t, live, rs[0]);
      if rs[0].Line? || rs[0].Terminal? {
        LineIsOurs(W, live.session, rs[0].input);
        Progress.LineForward(W, live.session, rs[0].input);
      }
      SubmittedStays(W, R, u, after, rs[1..]);
    }
  }

  /** `n` requests for a restart. */
  function Restarts(n: nat): seq<Request> { seq(n, _ => RestartSession) }

  /** Of restart requests in a row exactly as many get through as the limit leaves, and none for a session
      that is submitted or in an event without restarts. */
  lemma {:induction false} RestartsReached(W: World, R: Settings, t: Tables, live: Live, n: nat)
    requires W.Sane() && Placed(live.session) && (R.maxRestarts > 0 ==> live.restarts <= R.maxRestarts)
    ensures Lives(W, R, t, live, Restarts(n)).1.restarts ==
              if live.session.lab.submitted || !R.allowRestart then live.restarts
              else if R.maxRestarts > 0 && live.restarts + n > R.maxRestarts then R.maxRestarts
              else live.restarts + n
    decreases n
  {
    hide AfterLine, Placed, Persisted;
    if n > 0 {
      assert Restarts(n)[1..] == Restarts(n - 1);
      RestartPlaced(W, live.session);
      var (u, after) := Handled(W, R, t, live, RestartSession);
      RestartsReached(W, R, u, after, n - 1);
    }
  }

  /** A grade is taken exactly within the range, and stands while the participant goes on. */
  lemma {:induction false} GradeStands(W: World, R: Settings, t: Tables, live: Live, score: int, notes: string, rs: seq<Request>)
    requires W.Sane() && Placed(live.session) && forall r | r in rs :: r.Line? || r.Terminal?
    ensures var (u, graded) := Handled(W, R, t, live, Judging(score, notes));
            Lives(W, R, u, graded, rs).1.judge == if 0 <= score <= R.judgeMaximum then Judge(score, notes, true) else live.judge
  {
    hide AfterLine, Placed, Persisted;
    var (u, graded) := Handled(W, R, t, live, Judging(score, notes));
    JudgeStays(W, R, u, graded, rs);
  }

  lemma {:induction false} JudgeStays(W: World, R: Settings, t: Tables, live: Live, rs: seq<Request>)
    requires W.Sane() && Placed(live.session) && forall r | r in rs :: r.Line? || r.Terminal?
    ensures Lives(W, R, t, live, rs).1.judge == live.judge
    decreases |rs|
  {
    hide AfterLine, Placed, Persisted;
    if rs != [] {
      assert rs[0] in rs;
      var (u, after) := Handled(W, R, t, live, rs[0]);
      JudgeStays(W, R, u, after, rs[1..]);
    }
  }
}
