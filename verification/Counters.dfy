/** What the counters of a session's row are worth when requests overlap: which readings the
    row was written from, when they are still current, and what recovery then brings back. */
module Counters {
  import opened Evidence
  import opened Interpreter
  import opened Session
  import opened Progress
  import opened Store
  import opened Recovery
  import opened Persistence

  /** A run of single steps. */
  datatype Trace = Trace(W: World, R: Settings, start: Shared, steps: seq<Step>) {
    ghost predicate Valid() { W.Sane() && Placed(start.live.session) }

    /** The state after the first `n` steps. */
    function At(n: nat): (r: Shared)
      requires Valid() && n <= |steps|
      ensures Placed(r.live.session)
    {
      if n == 0 then start else Next(W, R, At(n - 1), steps[n - 1])
    }

    // ---- steps that take effect ----

    predicate Reports(j: nat, k: nat)
      requires Valid() && k < |steps|
    {
      steps[k] == Report(j) && j in At(k).jobs && At(k).jobs[j].Opened?
    }

    predicate Counts(j: nat, k: nat)
      requires Valid() && k < |steps|
    {
      steps[k] == Count(j) && IsTaken(At(k), j) && !CanSave(At(k), j)
    }

    predicate Looks(j: nat, k: nat)
      requires Valid() && k < |steps|
    {
      steps[k] == Look(j) && j in At(k).jobs && At(k).jobs[j].Counted?
    }

    predicate Closes(j: nat, k: nat)
      requires Valid() && k < |steps|
    {
      steps[k] == Close(j) && j in At(k).jobs && At(k).jobs[j].Closing?
    }

    /** A restart is let through. */
    predicate Grants(k: nat)
      requires Valid() && k < |steps|
    {
      steps[k] == Grant && R.allowRestart && !(R.maxRestarts > 0 && At(k).live.restarts >= R.maxRestarts)
    }

    predicate Renews(k: nat)
      requires Valid() && k < |steps|
    {
      steps[k] == Renew && At(k).granted > 0
    }

    /** A grade that is accepted, or a restart. */
    predicate Judges(k: nat)
      requires Valid() && k < |steps|
    {
      Renews(k) || (steps[k].Grade? && InRange(R, steps[k].score))
    }

    function JudgeSet(k: nat): Judge
      requires Valid() && k < |steps| && Judges(k)
    {
      if steps[k].Grade? then Judge(steps[k].score, steps[k].notes, true) else UNJUDGED
    }

    /** A line that submits the session. */
    predicate Submits(k: nat)
      requires Valid() && k < |steps|
    {
      steps[k].Enter? && !At(k).live.session.lab.submitted && At(k + 1).live.session.lab.submitted
    }

    predicate Flags(k: nat)
      requires Valid() && k < |steps|
    {
      Renews(k) || Submits(k)
    }

    // ---- what happened between two moments ----

    /** How many restarts were let through. */
    function Granted(from: nat, n: nat): nat
      requires Valid() && n <= |steps|
      decreases n
    {
      if n <= from then 0 else Granted(from, n - 1) + if Grants(n - 1) then 1 else 0
    }

    ghost predicate LastJudging(k: nat, from: nat, n: nat)
      requires Valid() && n <= |steps|
    {
      from <= k < n && Judges(k) && forall i: nat | k < i < n :: !Judges(i)
    }

    ghost predicate LastFlagging(k: nat, from: nat, n: nat)
      requires Valid() && n <= |steps|
    {
      from <= k < n && Flags(k) && forall i: nat | k < i < n :: !Flags(i)
    }

    /** No restart was let through. */
    ghost predicate CountHolds(from: nat, n: nat)
      requires Valid() && n <= |steps|
    {
      forall k: nat | from <= k < n :: !Grants(k)
    }

    /** The last accepted grade or restart, if any, left the judging as it had been. */
    ghost predicate JudgeHolds(from: nat, n: nat)
      requires Valid() && from <= n <= |steps|
    {
      forall k: nat | LastJudging(k, from, n) :: JudgeSet(k) == At(from).live.judge
    }

    /** The last submission or restart, if any, left the flag as it had been. */
    ghost predicate FlagHolds(from: nat, n: nat)
      requires Valid() && from <= n <= |steps|
    {
      forall k: nat | LastFlagging(k, from, n) :: Submits(k) == At(from).live.session.lab.submitted
    }

    // ---- the call that wrote the row ----

    ghost predicate NotReopened(j: nat, from: nat, n: nat)
      requires n <= |steps|
    {
      forall k: nat | from < k < n :: steps[k] != Open(j)
    }

    ghost predicate NoneCloses(from: nat, n: nat)
      requires Valid() && n <= |steps|
    {
      forall k: nat, j: nat | from <= k < n :: !Closes(j, k)
    }

    /** The `r`-th, `c`-th, `l`-th and `e`-th steps are one call's report, reading of the restart
        counter, reading of the submission, and last statement. */
    ghost predicate Call(j: nat, r: nat, c: nat, l: nat, e: nat)
      requires Valid()
    {
      r < c < l < e < |steps| && Reports(j, r) && Counts(j, c) && Looks(j, l) && Closes(j, e) && NotReopened(j, r, e)
    }

    /** The row is from the readings at the `r`-th, `c`-th and `l`-th steps: those of the call
        that closed last, or, when none has closed, of the session's creation. */
    ghost predicate WrittenFrom(r: nat, c: nat, l: nat, n: nat)
      requires Valid() && n <= |steps|
    {
      || (NoneCloses(0, n) && r == c == l == 0)
      || (exists j: nat, e: nat | e < n :: Call(j, r, c, l, e) && NoneCloses(e + 1, n))
    }
  }

  // ---- what a call has noted ----

  ghost predicate NotesJudge(s: Shared, j: nat, judge: Judge) { j in s.jobs ==> !s.jobs[j].Opened? && s.jobs[j].judge == judge }

  ghost predicate NotesCount(s: Shared, j: nat, restarts: int) {
    j in s.jobs ==> (s.jobs[j].Counted? || s.jobs[j].Closing?) && s.jobs[j].restarts == restarts
  }

  ghost predicate NotesFlag(s: Shared, j: nat, submitted: bool) { j in s.jobs ==> s.jobs[j].Closing? && s.jobs[j].submitted == submitted }

  /** What a call has noted stays, until it is opened again. */
  lemma NotesStay(W: World, R: Settings, s: Shared, step: Step, j: nat, judge: Judge, restarts: int, submitted: bool)
    requires W.Sane() && Placed(s.live.session) && step != Open(j)
    ensures var after := Next(W, R, s, step);
            && (NotesJudge(s, j, judge) ==> NotesJudge(after, j, judge))
            && (NotesCount(s, j, restarts) ==> NotesCount(after, j, restarts))
            && (NotesFlag(s, j, submitted) ==> NotesFlag(after, j, submitted))
  {
    hide AfterLine, Placed, SessionSaved, EvidenceSaved, EvidenceCleared, MetaSaved, NextEvent, InRange;
  }

  lemma {:induction false} NotesStayInRun(T: Trace, j: nat, from: nat, n: nat, judge: Judge, restarts: int, submitted: bool)
    requires T.Valid() && from <= n <= |T.steps| && forall k: nat | from <= k < n :: T.steps[k] != Open(j)
    ensures var s, after := T.At(from), T.At(n);
            && (NotesJudge(s, j, judge) ==> NotesJudge(after, j, judge))
            && (NotesCount(s, j, restarts) ==> NotesCount(after, j, restarts))
            && (NotesFlag(s, j, submitted) ==> NotesFlag(after, j, submitted))
    decreases n
  {
    hide Next, Placed, NotesJudge, NotesCount, NotesFlag;
    if n > from {
      NotesStayInRun(T, j, from, n - 1, judge, restarts, submitted);
      NotesStay(T.W, T.R, T.At(n - 1), T.steps[n - 1], j, judge, restarts, submitted);
    }
  }

  /** A reading is noted. */
  lemma Notes(T: Trace, j: nat, k: nat)
    requires T.Valid() && k < |T.steps|
    ensures var s, after := T.At(k), T.At(k + 1);
            && (T.Reports(j, k) ==> NotesJudge(after, j, s.live.judge))
            && (T.Counts(j, k) ==> NotesCount(after, j, s.live.restarts))
            && (T.Looks(j, k) ==> NotesFlag(after, j, s.live.session.lab.submitted))
  {
    hide AfterLine, Placed, SessionSaved, EvidenceSaved, EvidenceCleared, MetaSaved, NextEvent, InRange;
  }

  lemma RowStaysInStep(W: World, R: Settings, s: Shared, step: Step)
    requires W.Sane() && Placed(s.live.session) && !(step.Close? && step.job in s.jobs && s.jobs[step.job].Closing?)
    ensures Next(W, R, s, step).tables.meta == s.tables.meta
  {
    hide AfterLine, Placed, NextEvent, InRange;
  }

  lemma {:induction false} RowStays(T: Trace, from: nat, n: nat)
    requires T.Valid() && from <= n <= |T.steps| && T.NoneCloses(from, n)
    ensures T.At(n).tables.meta == T.At(from).tables.meta
    decreases n
  {
    hide Next, Placed;
    if n > from {
      RowStays(T, from, n - 1);
      assert T.steps[n - 1].Close? ==> !T.Closes(T.steps[n - 1].job, n - 1);
      RowStaysInStep(T.W, T.R, T.At(n - 1), T.steps[n - 1]);
    }
  }

  /** A session just created: its row, and no call under way. */
  ghost predicate Fresh(T: Trace) {
    T.Valid() && T.start.jobs == map[] && T.W.id in T.start.tables.meta && T.start.tables.meta[T.W.id] == MetaOf(T.start.live)
  }

  function JudgeOf(meta: Meta): Judge { Judge(meta.judgeScore, meta.judgeNotes, meta.judged) }

  lemma CloseWrites(W: World, R: Settings, s: Shared, j: nat)
    requires W.Sane() && Placed(s.live.session) && j in s.jobs && s.jobs[j].Closing?
    ensures var t := Next(W, R, s, Close(j)).tables;
            && W.id in t.meta && JudgeOf(t.meta[W.id]) == s.jobs[j].judge
            && t.meta[W.id].restarts == s.jobs[j].restarts && t.meta[W.id].submitted == s.jobs[j].submitted
  {
    hide Placed;
  }

  lemma RowOfCall(T: Trace, j: nat, r: nat, c: nat, l: nat, e: nat)
    requires T.Valid() && T.Call(j, r, c, l, e)
    ensures r < c < l < e < |T.steps|
    ensures var t := T.At(e + 1).tables;
            && T.W.id in t.meta && JudgeOf(t.meta[T.W.id]) == T.At(r).live.judge
            && t.meta[T.W.id].restarts == T.At(c).live.restarts
            && t.meta[T.W.id].submitted == T.At(l).live.session.lab.submitted
  {
    hide Placed, Next;
    Notes(T, j, r);
    Notes(T, j, c);
    Notes(T, j, l);
    var judge, restarts, submitted := T.At(r).live.judge, T.At(c).live.restarts, T.At(l).live.session.lab.submitted;
    NotesStayInRun(T, j, r + 1, e, judge, restarts, submitted);
    NotesStayInRun(T, j, c + 1, e, judge, restarts, submitted);
    NotesStayInRun(T, j, l + 1, e, judge, restarts, submitted);
    CloseWrites(T.W, T.R, T.At(e), j);
  }

  lemma FreshValid(T: Trace)
    requires Fresh(T)
    ensures T.Valid()
  {}

  lemma FreshRow(T: Trace)
    requires Fresh(T)
    ensures var live, t := T.At(0).live, T.At(0).tables;
            && T.W.id in t.meta && JudgeOf(t.meta[T.W.id]) == live.judge && t.meta[T.W.id].restarts == live.restarts
            && t.meta[T.W.id].submitted == live.session.lab.submitted
  {}

  /** The row holds what was read at its three readings. */
  lemma RowIsRead(T: Trace, r: nat, c: nat, l: nat, n: nat)
    requires Fresh(T) && n <= |T.steps| && T.WrittenFrom(r, c, l, n)
    ensures r <= n && c <= n && l <= n
    ensures var t := T.At(n).tables;
            && T.W.id in t.meta && JudgeOf(t.meta[T.W.id]) == T.At(r).live.judge
            && t.meta[T.W.id].restarts == T.At(c).live.restarts
            && t.meta[T.W.id].submitted == T.At(l).live.session.lab.submitted
  {
    hide Placed, Next, MetaOf, Trace.At, Trace.Call, Trace.NoneCloses, Fresh;
    FreshValid(T);
    if T.NoneCloses(0, n) && r == c == l == 0 {
      FreshRow(T);
      RowStays(T, 0, n);
    } else {
      var j: nat, e: nat :| e < n && T.Call(j, r, c, l, e) && T.NoneCloses(e + 1, n);
      RowOfCall(T, j, r, c, l, e);
      RowStays(T, e + 1, n);
    }
  }

  // ---- every row has its readings ----

  ghost predicate HasReport(T: Trace, j: nat, r: nat, n: nat)
    requires T.Valid() && n <= |T.steps|
  {
    r < n && T.Reports(j, r) && T.NotReopened(j, r, n)
  }

  ghost predicate HasCount(T: Trace, j: nat, r: nat, c: nat, n: nat)
    requires T.Valid() && n <= |T.steps|
  {
    r < c < n && T.Counts(j, c) && HasReport(T, j, r, n)
  }

  ghost predicate HasLook(T: Trace, j: nat, r: nat, c: nat, l: nat, n: nat)
    requires T.Valid() && n <= |T.steps|
  {
    c < l < n && T.Looks(j, l) && HasCount(T, j, r, c, n)
  }

  /** A call under way has taken the steps before its next one. */
  ghost predicate Begun(T: Trace, j: nat, n: nat)
    requires T.Valid() && n <= |T.steps|
  {
    j in T.At(n).jobs ==>
      var job := T.At(n).jobs[j];
      && (job.Reported? || job.Taken? ==> exists r: nat :: HasReport(T, j, r, n))
      && (job.Counted? ==> exists r: nat, c: nat :: HasCount(T, j, r, c, n))
      && (job.Closing? ==> exists r: nat, c: nat, l: nat :: HasLook(T, j, r, c, l, n))
  }

  predicate SameStage(a: Job, b: Job) {
    && (b.Counted? ==> a.Counted?) && (b.Closing? ==> a.Closing?) && (b.Reported? || b.Taken? ==> a.Reported? || a.Taken?)
  }

  lemma BegunStays(T: Trace, j: nat, n: nat)
    requires T.Valid() && n < |T.steps| && Begun(T, j, n) && T.steps[n] != Open(j)
    requires j in T.At(n + 1).jobs ==> j in T.At(n).jobs && SameStage(T.At(n).jobs[j], T.At(n + 1).jobs[j])
    ensures Begun(T, j, n + 1)
  {
    hide Next, Placed;
    if j in T.At(n + 1).jobs {
      var job := T.At(n + 1).jobs[j];
      if job.Reported? || job.Taken? {
        var r: nat :| HasReport(T, j, r, n);
        assert HasReport(T, j, r, n + 1);
      } else if job.Counted? {
        var r: nat, c: nat :| HasCount(T, j, r, c, n);
        assert HasCount(T, j, r, c, n + 1);
      } else if job.Closing? {
        var r: nat, c: nat, l: nat :| HasLook(T, j, r, c, l, n);
        assert HasLook(T, j, r, c, l, n + 1);
      }
    }
  }

  lemma StageAfter(T: Trace, j: nat, n: nat)
    requires T.Valid() && n < |T.steps|
    ensures var jobs := T.At(n + 1).jobs;
            && (T.Reports(j, n) ==> j in jobs && jobs[j].Reported?)
            && (T.Counts(j, n) ==> j in jobs && jobs[j].Counted?)
            && (T.Looks(j, n) ==> j in jobs && jobs[j].Closing?)
  {
    hide Placed, AfterLine, SessionSaved, EvidenceSaved, EvidenceCleared, MetaSaved, NextEvent, InRange;
  }

  /** The step that brings a call to its next stage. */
  lemma BegunMoves(T: Trace, j: nat, n: nat)
    requires T.Valid() && n < |T.steps| && Begun(T, j, n) && (T.Reports(j, n) || T.Counts(j, n) || T.Looks(j, n))
    ensures Begun(T, j, n + 1)
  {
    hide Placed, Next;
    StageAfter(T, j, n);
    if T.Reports(j, n) {
      assert HasReport(T, j, n, n + 1);
    } else if T.Counts(j, n) {
      var r: nat :| HasReport(T, j, r, n);
      assert HasCount(T, j, r, n, n + 1);
    } else {
      var r: nat, c: nat :| HasCount(T, j, r, c, n);
      assert HasLook(T, j, r, c, n, n + 1);
    }
  }

  lemma OneStage(T: Trace, j: nat, n: nat)
    requires T.Valid() && n < |T.steps| && T.steps[n] != Open(j)
    requires !T.Reports(j, n) && !T.Counts(j, n) && !T.Looks(j, n)
    ensures j in T.At(n + 1).jobs ==> j in T.At(n).jobs && SameStage(T.At(n).jobs[j], T.At(n + 1).jobs[j])
  {
    hide Placed, AfterLine;
  }

  lemma BegunNext(T: Trace, j: nat, n: nat)
    requires T.Valid() && n < |T.steps| && Begun(T, j, n)
    ensures Begun(T, j, n + 1)
  {
    hide Next, Placed, Begun, SameStage;
    if T.steps[n] == Open(j) {
      OpensFirst(T, j, n);
    } else if T.Reports(j, n) || T.Counts(j, n) || T.Looks(j, n) {
      BegunMoves(T, j, n);
    } else {
      OneStage(T, j, n);
      BegunStays(T, j, n);
    }
  }

  lemma OpensFirst(T: Trace, j: nat, n: nat)
    requires T.Valid() && n < |T.steps| && T.steps[n] == Open(j)
    ensures Begun(T, j, n + 1)
  {}

  lemma {:induction false} AllBegun(T: Trace, j: nat, n: nat)
    requires Fresh(T) && n <= |T.steps|
    ensures Begun(T, j, n)
    decreases n
  {
    hide Next, Placed;
    if n > 0 {
      AllBegun(T, j, n - 1);
      BegunNext(T, j, n - 1);
    }
  }

  /** In every run from creation on, the row comes from three readings of one call, or is the
      one of the creation. */
  lemma {:induction false} EveryRowIsWritten(T: Trace, n: nat) returns (r: nat, c: nat, l: nat)
    requires Fresh(T) && n <= |T.steps|
    ensures T.WrittenFrom(r, c, l, n)
    decreases n
  {
    hide Next, Placed, Begun;
    if n == 0 {
      r, c, l := 0, 0, 0;
    } else {
      r, c, l := EveryRowIsWritten(T, n - 1);
      if T.steps[n - 1].Close? && T.Closes(T.steps[n - 1].job, n - 1) {
        var j := T.steps[n - 1].job;
        AllBegun(T, j, n - 1);
        r, c, l := ClosesLast(T, j, n - 1);
      } else {
        WrittenStays(T, r, c, l, n - 1);
      }
    }
  }

  lemma ClosesLast(T: Trace, j: nat, n: nat) returns (r: nat, c: nat, l: nat)
    requires T.Valid() && n < |T.steps| && Begun(T, j, n) && T.Closes(j, n)
    ensures T.WrittenFrom(r, c, l, n + 1)
  {
    hide Next, Placed;
    r, c, l :| HasLook(T, j, r, c, l, n);
    assert T.Call(j, r, c, l, n) && T.NoneCloses(n + 1, n + 1);
  }

  lemma WrittenStays(T: Trace, r: nat, c: nat, l: nat, n: nat)
    requires T.Valid() && n < |T.steps| && T.WrittenFrom(r, c, l, n)
    requires T.steps[n].Close? ==> !T.Closes(T.steps[n].job, n)
    ensures T.WrittenFrom(r, c, l, n + 1)
  {
    hide Next, Placed;
    assert forall j: nat :: !T.Closes(j, n);
    if T.NoneCloses(0, n) && r == c == l == 0 {
      assert T.NoneCloses(0, n + 1);
    } else {
      var j: nat, e: nat :| e < n && T.Call(j, r, c, l, e) && T.NoneCloses(e + 1, n);
      assert T.NoneCloses(e + 1, n + 1);
    }
  }

  // ---- what has changed since ----

  /** The restarts let through since are what the counter has risen by. */
  lemma {:induction false} RestartsSince(T: Trace, from: nat, n: nat)
    requires T.Valid() && from <= n <= |T.steps|
    ensures T.At(n).live.restarts == T.At(from).live.restarts + T.Granted(from, n)
    ensures T.Granted(from, n) == 0 <==> T.CountHolds(from, n)
    decreases n
  {
    hide Next, Placed;
    if n > from {
      RestartsSince(T, from, n - 1);
      GrantStep(T, n - 1);
      if T.CountHolds(from, n - 1) && !T.Grants(n - 1) { assert T.CountHolds(from, n); }
    }
  }

  lemma GrantStep(T: Trace, n: nat)
    requires T.Valid() && n < |T.steps|
    ensures T.At(n + 1).live.restarts == T.At(n).live.restarts + if T.Grants(n) then 1 else 0
  {
    hide AfterLine, Placed;
  }

  lemma {:induction false} JudgeSince(T: Trace, from: nat, n: nat)
    requires T.Valid() && from <= n <= |T.steps|
    ensures T.At(n).live.judge == T.At(from).live.judge <==> T.JudgeHolds(from, n)
    decreases n
  {
    hide Next, Placed;
    if n > from {
      JudgeSince(T, from, n - 1);
      JudgeStep(T, n - 1);
      if T.Judges(n - 1) {
        assert T.LastJudging(n - 1, from, n);
      } else {
        assert forall k: nat :: T.LastJudging(k, from, n) <==> T.LastJudging(k, from, n - 1);
      }
    }
  }

  lemma JudgeStep(T: Trace, n: nat)
    requires T.Valid() && n < |T.steps|
    ensures T.At(n + 1).live.judge == if T.Judges(n) then T.JudgeSet(n) else T.At(n).live.judge
  {
    hide AfterLine, Placed;
  }

  lemma {:induction false} FlagSince(T: Trace, from: nat, n: nat)
    requires T.Valid() && from <= n <= |T.steps|
    ensures T.At(n).live.session.lab.submitted == T.At(from).live.session.lab.submitted <==> T.FlagHolds(from, n)
    decreases n
  {
    hide Next, Placed;
    if n > from {
      FlagSince(T, from, n - 1);
      FlagStep(T, n - 1);
      if T.Flags(n - 1) {
        assert T.LastFlagging(n - 1, from, n);
      } else {
        assert forall k: nat :: T.LastFlagging(k, from, n) <==> T.LastFlagging(k, from, n - 1);
      }
    }
  }

  lemma FlagStep(T: Trace, n: nat)
    requires T.Valid() && n < |T.steps|
    ensures T.At(n + 1).live.session.lab.submitted == if T.Flags(n) then T.Submits(n) else T.At(n).live.session.lab.submitted
  {
    hide AfterLine, Placed;
    if T.steps[n].Enter? { LineForward(T.W, T.At(n).live.session, T.steps[n].line); }
  }

  /** In every run, whatever overlaps: the stored number of restarts lags behind by exactly the
      restarts let through since it was read, so that it is current if and only if there was
      none; the stored judging is current if and only if the last accepted grade or restart
      since the report, if any, left it as it was; and so for the submitted flag. */
  lemma CountersExact(T: Trace, r: nat, c: nat, l: nat, n: nat)
    requires Fresh(T) && n <= |T.steps| && T.WrittenFrom(r, c, l, n)
    ensures r <= n && c <= n && l <= n && T.W.id in T.At(n).tables.meta
    ensures var live, row := T.At(n).live, T.At(n).tables.meta[T.W.id];
            && row.restarts + T.Granted(c, n) == live.restarts
            && (row.restarts == live.restarts <==> T.CountHolds(c, n))
            && (JudgeOf(row) == live.judge <==> T.JudgeHolds(r, n))
            && (row.submitted == live.session.lab.submitted <==> T.FlagHolds(l, n))
  {
    hide Next, Placed;
    RowIsRead(T, r, c, l, n);
    RestartsSince(T, c, n);
    JudgeSince(T, r, n);
    FlagSince(T, l, n);
  }

  // ---- what recovery brings back ----

  predicate Sensible(R: Settings, judge: Judge) { if judge.judged then InRange(R, judge.score) else judge == UNJUDGED }

  /** What every step keeps of a session from its creation on. */
  ghost predicate Genuine(W: World, R: Settings, s: Shared, seed: int)
    requires W.Sane()
  {
    && Reached(W, seed, s.live.session) && Sensible(R, s.live.judge)
    && W.id in s.tables.sessions && s.tables.sessions[W.id].created == seed
  }

  lemma LineReaches(W: World, seed: int, s: Session, input: string)
    requires W.Sane() && Placed(s) && Reached(W, seed, s)
    ensures Reached(W, seed, AfterLine(W, s, input).0)
  {
    hide AfterLine, RunLines;
    var lines :| From(W, seed, s, lines);
    RunOneMore(W, NewSession(W, seed), lines, input);
    assert From(W, seed, AfterLine(W, s, input).0, lines + [input]);
  }

  lemma RestartReaches(W: World, seed: int, s: Session)
    requires W.Sane() && Placed(s) && Reached(W, seed, s)
    ensures Reached(W, seed, Restarted(s))
  {
    hide RunLines;
    var lines :| From(W, seed, s, lines);
    RunNoLines(W, NewSession(W, seed));
    assert From(W, seed, Restarted(s), []);
  }

  lemma GenuineNext(W: World, R: Settings, s: Shared, step: Step, seed: int)
    requires W.Sane() && Placed(s.live.session) && Genuine(W, R, s, seed)
    ensures Genuine(W, R, Next(W, R, s, step), seed)
  {
    hide AfterLine, Placed, Reached, NextEvent, Restarted;
    match step
    case Enter(line) => LineReaches(W, seed, s.live.session, line);
    case Renew => RestartReaches(W, seed, s.live.session);
    case _ =>
  }

  lemma {:induction false} AlwaysGenuine(T: Trace, n: nat, seed: int)
    requires T.Valid() && n <= |T.steps| && Genuine(T.W, T.R, T.start, seed)
    ensures Genuine(T.W, T.R, T.At(n), seed)
    decreases n
  {
    hide Next, Placed, Genuine;
    if n > 0 {
      AlwaysGenuine(T, n - 1, seed);
      GenuineNext(T.W, T.R, T.At(n - 1), T.steps[n - 1], seed);
    }
  }

  lemma BornGenuine(W: World, R: Settings, t: Tables, seed: int, steps: seq<Step>)
    requires W.Sane() && W.id !in t.sessions
    ensures var T := Trace(W, R, Born(W, R, t, seed), steps);
            Fresh(T) && Genuine(W, R, T.start, seed)
  {
    hide RunLines;
    RunNoLines(W, NewSession(W, seed));
    assert From(W, seed, NewSession(W, seed), []);
  }

  lemma {:induction false} AtIsRun(T: Trace, n: nat)
    requires T.Valid() && n <= |T.steps|
    ensures T.At(n) == Run(T.W, T.R, T.start, T.steps[..n])
    decreases n
  {
    hide Next, Placed;
    if n > 0 {
      AtIsRun(T, n - 1);
      assert T.steps[..n] == T.steps[..n - 1] + [T.steps[n - 1]];
      RunBoth(T.W, T.R, T.start, T.steps[..n - 1], [T.steps[n - 1]]);
      Single(T.W, T.R, T.At(n - 1), T.steps[n - 1]);
    }
  }

  /** The chain's last event has a row. */
  predicate AllSaved(W: World, s: Shared) {
    var events := s.live.session.log.events;
    events == [] || (W.id, |events|) in s.tables.evidence
  }

  lemma AllSavedExact(W: World, s: Shared, m: nat)
    requires RowsUpTo(W, s.tables, s.live.session.log, m)
    ensures AllSaved(W, s) <==> m == |s.live.session.log.events|
    ensures AllSaved(W, s) <==> RowsAre(s.tables, W.id, s.live.session.log.events)
  {
    var events := s.live.session.log.events;
    RowOfPrefix(W, s, m, |events|);
    assert events[..|events|] == events;
    if RowsAre(s.tables, W.id, events) && events != [] { assert (W.id, |events|) in s.tables.evidence; }
  }

  /** Rows that are a prefix of the chain: recovery brings that prefix back. */
  lemma RecoversPrefix(W: World, R: Settings, t: Tables, log: Log, m: nat, stamp: int)
    requires W.Sane() && W.id in t.sessions && RowsUpTo(W, t, log, m) && Ours(W, log)
    ensures Recover(W, R, t, stamp).Back? && Recover(W, R, t, stamp).live.session.log.events == log.events[..m]
  {
    hide Wellformed, Verified, RunLines, Commands, InRange, RowsAre, Loaded;
    LoadGivesRows(t, W.id, log.events[..m]);
    WellformedVerified(W, log);
    PrefixVerified(W.hashing, log.events, m);
  }

  lemma WellformedVerified(W: World, log: Log)
    requires Wellformed(W.hashing, log)
    ensures Verified(W.hashing, log.events) && log == Log(log.events, HeadOf(log.events))
  {}

  lemma RecoversRow(W: World, R: Settings, t: Tables, stamp: int)
    requires W.Sane() && Recover(W, R, t, stamp).Back? && W.id in t.meta && Sensible(R, JudgeOf(t.meta[W.id]))
    ensures var back := Recover(W, R, t, stamp).live;
            back.restarts == t.meta[W.id].restarts && back.judge == JudgeOf(t.meta[W.id])
  {
    hide Replayed, Loaded, Verified;
  }

  /** The session as recovery rebuilds it from the rows of its whole chain, before the row of
      its counters is looked at. */
  ghost function Rebuilt(W: World, t: Tables): Session
    requires W.Sane() && W.id in t.sessions
  {
    var events := Loaded(t, W.id);
    if events == [] then NewSession(W, t.sessions[W.id].created) else Replayed(W, events)
  }

  lemma RebuiltExact(W: World, t: Tables, s: Session, seed: int)
    requires W.Sane() && W.id in t.sessions && t.sessions[W.id].created == seed
    requires RowsAre(t, W.id, s.log.events) && Reached(W, seed, s)
    ensures var events := s.log.events;
            && (Rebuilt(W, t) == s <==> events == [] || !Rejected(events[0].command))
            && (Rebuilt(W, t) != s ==> Rebuilt(W, t).started != s.started)
  {
    hide RunLines, Commands, Rejected, RowsAre;
    LoadGivesRows(t, W.id, s.log.events);
    var lines :| From(W, seed, s, lines);
    ReplayExact(W, seed, lines);
    if s.log.events == [] { NoEventsFresh(W, seed, s); }
    else { SeedsDiffer(W, seed, lines); }
  }

  /** With all rows there, recovery brings the whole session back, up to the time of its
      submission, exactly if the counters are current, a stored submission is one, and the
      first line was not rejected. */
  lemma RecoveredExact(W: World, R: Settings, t: Tables, live: Live, seed: int, stamp: int)
    requires W.Sane() && W.id in t.sessions && t.sessions[W.id].created == seed && W.id in t.meta
    requires RowsAre(t, W.id, live.session.log.events) && Reached(W, seed, live.session)
    requires Recover(W, R, t, stamp).Back? && Sensible(R, JudgeOf(t.meta[W.id]))
    ensures var row, events := t.meta[W.id], live.session.log.events;
            Timeless(Recover(W, R, t, stamp).live, stamp) == Timeless(live, stamp) <==>
              && row.restarts == live.restarts && JudgeOf(row) == live.judge && (row.submitted ==> live.session.lab.submitted)
              && (events == [] || !Rejected(events[0].command))
  {
    hide Replayed, Loaded, Verified, Rejected, RowsAre, Reached;
    RecoversRow(W, R, t, stamp);
    RebuiltExact(W, t, live.session, seed);
    var session := Rebuilt(W, t);
    var back := Recover(W, R, t, stamp).live;
    assert back.session == if t.meta[W.id].submitted then Stamped(session, stamp) else session;
  }

  /** From creation through any interleaving without a harmful save: recovery succeeds; it
      brings the chain back exactly if the chain's last event has a row, the counters
      exactly if they have held since the readings that the row is from, and the whole
      session exactly under all these conditions and that of the replay. */
  lemma RecoversAfterOverlap(W: World, R: Settings, t: Tables, seed: int, steps: seq<Step>, r: nat, c: nat, l: nat, stamp: int)
    requires W.Sane() && W.id !in t.sessions && RowsAre(t, W.id, []) && Placed(Born(W, R, t, seed).live.session)
    requires NeverHarmful(W, R, Born(W, R, t, seed), steps)
    requires Trace(W, R, Born(W, R, t, seed), steps).WrittenFrom(r, c, l, |steps|)
    ensures r <= |steps| && c <= |steps| && l <= |steps|
    ensures var T := Trace(W, R, Born(W, R, t, seed), steps);
            var n := |steps|;
            var s := Run(W, R, Born(W, R, t, seed), steps);
            var events := s.live.session.log.events;
            s == T.At(n) && (Quiet(s) ==>
              && Recover(W, R, s.tables, stamp).Back?
              && var back := Recover(W, R, s.tables, stamp).live;
                 && (RowsAre(s.tables, W.id, events) <==> AllSaved(W, s)) && (forall j | HasSaved(s, j) :: AllSaved(W, s))
                 && (back.session.log == s.live.session.log <==> AllSaved(W, s))
                 && (back.restarts == s.live.restarts <==> T.CountHolds(c, n))
                 && (back.judge == s.live.judge <==> T.JudgeHolds(r, n))
                 && (Timeless(back, stamp) == Timeless(s.live, stamp) <==>
                       && AllSaved(W, s) && T.CountHolds(c, n) && T.JudgeHolds(r, n)
                       && (T.At(l).live.session.lab.submitted ==> T.FlagHolds(l, n))
                       && (events == [] || !Rejected(events[0].command))))
  {
    hide NeverHarmful, Placed, Run, Recover, RowsAre, Trace.At, Timeless, Rejected, Quiet;
    var b := Born(W, R, t, seed);
    var T := Trace(W, R, b, steps);
    var n := |steps|;
    BornOrderly(W, R, t, seed);
    RunOrderly(W, R, b, steps);
    BornGenuine(W, R, t, seed, steps);
    AtIsRun(T, n);
    assert steps[..n] == steps;
    CountersExact(T, r, c, l, n);
    RowIsRead(T, r, c, l, n);
    AlwaysGenuine(T, n, seed);
    AlwaysGenuine(T, r, seed);
    if Quiet(T.At(n)) { RecoversOrderly(W, R, T.At(n), seed, stamp); }
  }

  /** The part of it that is about the last state alone. */
  lemma RecoversOrderly(W: World, R: Settings, s: Shared, seed: int, stamp: int)
    requires W.Sane() && Orderly(W, s) && Quiet(s) && Genuine(W, R, s, seed)
    requires W.id in s.tables.meta && Sensible(R, JudgeOf(s.tables.meta[W.id]))
    ensures Recover(W, R, s.tables, stamp).Back?
    ensures var back, row, live := Recover(W, R, s.tables, stamp).live, s.tables.meta[W.id], s.live;
            var events := live.session.log.events;
            && (RowsAre(s.tables, W.id, events) <==> AllSaved(W, s)) && (forall j | HasSaved(s, j) :: AllSaved(W, s))
            && (back.session.log == live.session.log <==> AllSaved(W, s))
            && back.restarts == row.restarts && back.judge == JudgeOf(row)
            && (Timeless(back, stamp) == Timeless(live, stamp) <==>
                  && AllSaved(W, s) && row.restarts == live.restarts && JudgeOf(row) == live.judge
                  && (row.submitted ==> live.session.lab.submitted) && (events == [] || !Rejected(events[0].command)))
  {
    hide Recover, RowsAre, Placed, Reached, Sensible, Rejected, Ours, JobFits;
    var m: nat :| Behind(W, s, m);
    var log := s.live.session.log;
    AllSavedExact(W, s, m);
    forall j | HasSaved(s, j) ensures AllSaved(W, s) { CaughtUp(W, s, j); }
    RecoversPrefix(W, R, s.tables, log, m, stamp);
    RecoversRow(W, R, s.tables, stamp);
    if AllSaved(W, s) {
      RecoversChain(W, R, s.tables, log, stamp);
      RecoveredExact(W, R, s.tables, s.live, seed, stamp);
    } else {
      assert |log.events[..m]| < |log.events|;
    }
  }
}
