/** internal/runtime/session.go: a session, its event log, and the replay that
    rebuilds the session from the log. */
module Session {
  import opened Text
  import opened Host
  import opened Paths
  import opened Shell
  import opened Interpreter
  import opened Evidence
  import Rules

  const SECOND: int := 1_000_000_000
  /** 2026-01-01T00:00:00Z, the seed of a replay without events. */
  const DEFAULT_SEED: int := 1_767_225_600 * SECOND
  const MAX_LINE := 16384

  /** The fields that a replay has to rebuild. */
  datatype Session = Session(now: Host, initial: Host, started: int, history: seq<string>, lab: Lab, log: Log)

  function NewSession(W: World, seed: int): Session {
    Session(W.boot(seed), W.boot(seed), seed, [], NEW_LAB, EMPTY)
  }

  // ---- input ----

  /** unicode.IsSpace. */
  predicate IsSpace(c: char) {
    c in "\t\n\U{0b}\U{0c}\r \U{85}\U{a0}\U{1680}\U{2028}\U{2029}\U{202f}\U{205f}\U{3000}" || '\U{2000}' <= c <= '\U{200a}'
  }

  function TrimLeft(s: string): (r: string)
    ensures r == "" || !IsSpace(r[0])
  {
    if s != "" && IsSpace(s[0]) then TrimLeft(s[1..]) else s
  }

  function TrimRight(s: string): (r: string)
    ensures r <= s
    ensures r == "" || !IsSpace(r[|r| - 1])
  {
    if s != "" && IsSpace(s[|s| - 1]) then TrimRight(s[..|s| - 1]) else s
  }

  function TrimSpace(s: string): string { TrimRight(TrimLeft(s)) }

  /** What is kept of a line is what would be kept of it again. */
  lemma TrimIdempotent(s: string)
    ensures TrimSpace(TrimSpace(s)) == TrimSpace(s)
  {
    hide IsSpace;
    var t := TrimSpace(s);
    assert t != "" ==> t[0] == TrimLeft(s)[0];
    assert TrimLeft(t) == t && TrimRight(t) == t;
  }

  // ---- one line ----

  /** The line is recorded without being run. */
  predicate Rejected(line: string) { ByteLen(line) > MAX_LINE || ParseSpec(line).Err? }

  function ErrorText(e: SyntaxError): string {
    match e
    case TrailingEscape => "shell: trailing escape"
    case UnterminatedQuote => "shell: unterminated quote"
    case EmptyCommand => "shell: empty command"
    case EmptyPipeline => "shell: empty pipeline"
    case MissingTarget => "shell: redirection missing target"
  }

  function EventOf(W: World, h: Host, line: string, reply: Reply): Event {
    Event(W.id, 0, h.clock, h.clock, "command", h.currentUser, line, reply.exitCode, reply.mutations, "", "")
  }

  function Record(W: World, s: Session, line: string, reply: Reply): (Session, Reply) {
    (s.(log := Appended(W.hashing, s.log, EventOf(W, s.now, line, reply))), reply)
  }

  function ContextOf(s: Session): Context { Context(s.now, s.initial, s.lab, s.history, Attached, s.now.cwd) }

  function LineOf(W: World, s: Session): Line { Line(W, s.log, s.started, s.now.currentUser) }

  ghost predicate Placed(s: Session) { Canonical(s.now.cwd) && Canonical(s.initial.cwd) }

  /** The statements of a line, the rules, one second. */
  function Execute(W: World, s: Session, line: string, ss: seq<Statement>): (r: (Session, Reply))
    requires W.Sane() && Placed(s)
    ensures Placed(r.0) && r.0.initial == s.initial && r.0.started == s.started && r.0.log == s.log
    ensures r.0.now.clock == s.now.clock + SECOND || r.0.now.clock == s.initial.clock + SECOND
  {
    var (c, said) := Statements(LineOf(W, s), ContextOf(s), ss, line, QUIET);
    var (after, mutations) := Rules.ApplyRules(W.engine, c.now, W.engine.rules);
    (s.(now := after.(clock := after.clock + SECOND), lab := c.lab, history := c.history), said.(mutations := mutations))
  }

  function AfterLine(W: World, s: Session, input: string): (r: (Session, Reply))
    requires W.Sane() && Placed(s)
    ensures Placed(r.0) && r.0.initial == s.initial && r.0.started == s.started
  {
    var line := TrimSpace(input);
    if line == "" then (s, QUIET)
    else if ByteLen(line) > MAX_LINE then Record(W, s, line, Fail(2, "command exceeds 16 KiB\n"))
    else
      match ParseSpec(line)
      case Err(e) => Record(W, s, line, Fail(2, ErrorText(e) + "\n"))
      case Ok(ss) =>
        var (after, reply) := Execute(W, s, line, ss);
        Record(W, after, line, reply)
  }

  function Restarted(s: Session): Session { Session(s.initial, s.initial, s.initial.clock, [], NEW_LAB, EMPTY) }

  function RunLines(W: World, s: Session, inputs: seq<string>): (r: Session)
    requires W.Sane() && Placed(s)
    ensures Placed(r) && r.initial == s.initial && r.started == s.started
    decreases |inputs|
  {
    if inputs == [] then s else RunLines(W, AfterLine(W, s, inputs[0]).0, inputs[1..])
  }

  // ---- replay ----

  function Commands(events: seq<Event>): seq<string> {
    if events == [] then []
    else (if events[0].kind == "command" then [events[0].command] else []) + Commands(events[1..])
  }

  function SeedOf(events: seq<Event>): int {
    if events == [] then DEFAULT_SEED else events[0].virtualTimestamp - SECOND
  }

  /** Replay without its last check, that the events verify. */
  function Replayed(W: World, events: seq<Event>): Session
    requires W.Sane()
  {
    RunLines(W, NewSession(W, SeedOf(events)), Commands(events)).(log := Log(events, HeadOf(events)))
  }

  // ---- what a line records ----

  lemma TrimmedLine(W: World, s: Session, input: string)
    requires W.Sane() && Placed(s)
    ensures AfterLine(W, s, TrimSpace(input)) == AfterLine(W, s, input)
  {
    hide TrimSpace, Execute, Record, ParseSpec, ByteLen;
    TrimIdempotent(input);
  }

  /** A line that is not blank appends one event, which holds the trimmed line and the time after it. */
  lemma LineRecorded(W: World, s: Session, input: string)
    requires W.Sane() && Placed(s)
    ensures var after := AfterLine(W, s, input).0;
            if TrimSpace(input) == "" then after == s
            else
              && |after.log.events| == |s.log.events| + 1
              && after.log.events[..|s.log.events|] == s.log.events
              && var e := after.log.events[|s.log.events|];
                 e.kind == "command" && e.command == TrimSpace(input) && e.virtualTimestamp == after.now.clock
  {
    hide TrimSpace, Execute, ParseSpec, ByteLen;
  }

  lemma LineVerified(W: World, s: Session, input: string)
    requires W.Sane() && Placed(s) && Wellformed(W.hashing, s.log)
    ensures Wellformed(W.hashing, AfterLine(W, s, input).0.log)
  {
    hide TrimSpace, Execute, ParseSpec, ByteLen, Wellformed, Appended;
    var line := TrimSpace(input);
    if line != "" {
      var e := if ByteLen(line) > MAX_LINE then EventOf(W, s.now, line, Fail(2, "command exceeds 16 KiB\n"))
               else match ParseSpec(line)
                 case Err(e) => EventOf(W, s.now, line, Fail(2, ErrorText(e) + "\n"))
                 case Ok(ss) => var (after, reply) := Execute(W, s, line, ss); EventOf(W, after.now, line, reply);
      AppendVerified(W.hashing, s.log, e);
    }
  }

  /** The first second: a fresh session's clock moves exactly when the line is run. */
  lemma FirstClock(W: World, seed: int, input: string)
    requires W.Sane() && TrimSpace(input) != ""
    ensures AfterLine(W, NewSession(W, seed), input).0.now.clock == seed + if Rejected(TrimSpace(input)) then 0 else SECOND
  {
    hide TrimSpace, ParseSpec, ByteLen;
    var s := NewSession(W, seed);
    var line := TrimSpace(input);
    if !Rejected(line) {
      var ss := ParseSpec(line).value;
      assert AfterLine(W, s, input).0.now.clock == Execute(W, s, line, ss).0.now.clock;
    }
  }

  // ---- the log determines the session ----

  lemma CommandsConcat(a: seq<Event>, b: seq<Event>)
    ensures Commands(a + b) == Commands(a) + Commands(b)
    decreases |a|
  {
    if a == [] {
      assert a + b == b;
    } else {
      assert (a + b)[1..] == a[1..] + b;
      CommandsConcat(a[1..], b);
    }
  }

  lemma SplitLog(before: seq<Event>, mid: seq<Event>, end: seq<Event>)
    requires |before| <= |mid| <= |end| && mid[..|before|] == before && end[..|mid|] == mid
    ensures end[..|before|] == before
    ensures end[|before|..] == mid[|before|..] + end[|mid|..]
  {}

  /** What the inputs added to the log, run again from the same session, ends in the same session. */
  lemma {:induction false} LogDeterminesSession(W: World, s: Session, inputs: seq<string>)
    requires W.Sane() && Placed(s) && Wellformed(W.hashing, s.log)
    ensures var end := RunLines(W, s, inputs);
            && Wellformed(W.hashing, end.log) && |s.log.events| <= |end.log.events|
            && end.log.events[..|s.log.events|] == s.log.events
            && RunLines(W, s, Commands(end.log.events[|s.log.events|..])) == end
    decreases |inputs|
  {
    hide AfterLine, Wellformed, Placed, TrimSpace;
    if inputs != [] {
      var mid := AfterLine(W, s, inputs[0]).0;
      LineRecorded(W, s, inputs[0]);
      LineVerified(W, s, inputs[0]);
      LogDeterminesSession(W, mid, inputs[1..]);
      var end := RunLines(W, mid, inputs[1..]);
      if TrimSpace(inputs[0]) != "" {
        SplitLog(s.log.events, mid.log.events, end.log.events);
        FirstCommand(mid.log.events[|s.log.events|..], end.log.events[|mid.log.events|..], TrimSpace(inputs[0]));
        TrimmedLine(W, s, inputs[0]);
        RunFirst(W, s, TrimSpace(inputs[0]), Commands(end.log.events[|mid.log.events|..]));
      }
    } else {
      assert s.log.events[|s.log.events|..] == [];
    }
  }

  lemma FirstCommand(one: seq<Event>, rest: seq<Event>, line: string)
    requires |one| == 1 && one[0].kind == "command" && one[0].command == line
    ensures Commands(one + rest) == [line] + Commands(rest)
  {
    CommandsConcat(one, rest);
    assert Commands(one) == [line];
  }

  lemma RunFirst(W: World, s: Session, line: string, rest: seq<string>)
    requires W.Sane() && Placed(s)
    ensures RunLines(W, s, [line] + rest) == RunLines(W, AfterLine(W, s, line).0, rest)
  {
    assert ([line] + rest)[1..] == rest;
  }

  /** The first event's time tells whether its line was run. */
  lemma {:induction false} FirstEvent(W: World, seed: int, inputs: seq<string>)
    requires W.Sane()
    ensures var events := RunLines(W, NewSession(W, seed), inputs).log.events;
            events != [] ==> events[0].virtualTimestamp == seed + if Rejected(events[0].command) then 0 else SECOND
    decreases |inputs|
  {
    hide AfterLine, TrimSpace, Rejected;
    if inputs != [] {
      var s := NewSession(W, seed);
      var mid := AfterLine(W, s, inputs[0]).0;
      LineRecorded(W, s, inputs[0]);
      if TrimSpace(inputs[0]) == "" {
        FirstEvent(W, seed, inputs[1..]);
      } else {
        FirstClock(W, seed, inputs[0]);
        LineVerified(W, s, inputs[0]);
        LogDeterminesSession(W, mid, inputs[1..]);
        var events := RunLines(W, mid, inputs[1..]).log.events;
        assert events[0] == events[..1][0] == mid.log.events[0];
      }
    }
  }

  /** The log of a session verifies, and replaying it rebuilds the session: machine,
      snapshot, clock, start, history, progress and log. The one exception is a log
      that hides the seed: its first line was rejected, or there is no line at all. */
  lemma ReplayExact(W: World, seed: int, inputs: seq<string>)
    requires W.Sane()
    ensures var s := RunLines(W, NewSession(W, seed), inputs);
            var events := s.log.events;
            && Verified(W.hashing, events)
            && (Replayed(W, events) == s <==>
                  if events == [] then seed == DEFAULT_SEED else !Rejected(events[0].command))
  {
    hide Rejected, RunLines, Commands;
    var first := NewSession(W, seed);
    LogDeterminesSession(W, first, inputs);
    FirstEvent(W, seed, inputs);
    var s := RunLines(W, first, inputs);
    var events := s.log.events;
    assert events[|first.log.events|..] == events;
    var again := RunLines(W, NewSession(W, SeedOf(events)), Commands(events));
    assert again.started == SeedOf(events) && s.started == seed;
    if SeedOf(events) == seed { assert s.log == Log(events, HeadOf(events)); }
  }

  // ---- restarts ----

  datatype Request = Input(line: string) | Restart

  function RunRequests(W: World, s: Session, rs: seq<Request>): (r: Session)
    requires W.Sane() && Placed(s)
    ensures Placed(r) && r.initial == s.initial
    decreases |rs|
  {
    if rs == [] then s
    else
      match rs[0]
      case Input(line) => RunRequests(W, AfterLine(W, s, line).0, rs[1..])
      case Restart => RunRequests(W, Restarted(s), rs[1..])
  }

  /** The lines after the last restart, behind `lines`. */
  function SinceRestart(rs: seq<Request>, lines: seq<string>): seq<string>
    decreases |rs|
  {
    if rs == [] then lines
    else
      match rs[0]
      case Input(line) => SinceRestart(rs[1..], lines + [line])
      case Restart => SinceRestart(rs[1..], [])
  }

  lemma {:induction false} RunOneMore(W: World, s: Session, lines: seq<string>, line: string)
    requires W.Sane() && Placed(s)
    ensures RunLines(W, s, lines + [line]) == AfterLine(W, RunLines(W, s, lines), line).0
    decreases |lines|
  {
    hide AfterLine, Placed;
    if lines == [] {
      assert [] + [line] == [line] && [line][1..] == [];
    } else {
      assert (lines + [line])[1..] == lines[1..] + [line];
      RunOneMore(W, AfterLine(W, s, lines[0]).0, lines[1..], line);
    }
  }

  /** A restarted session is a fresh one: whatever came before the last restart leaves
      no trace, so replay rebuilds restarted sessions as well. */
  lemma {:induction false} RestartsLeaveNoTrace(W: World, seed: int, lines: seq<string>, rs: seq<Request>)
    requires W.Sane()
    ensures RunRequests(W, RunLines(W, NewSession(W, seed), lines), rs)
         == RunLines(W, NewSession(W, seed), SinceRestart(rs, lines))
    decreases |rs|
  {
    hide AfterLine;
    if rs != [] {
      var first := NewSession(W, seed);
      var s := RunLines(W, first, lines);
      match rs[0]
      case Input(line) =>
        RunOneMore(W, first, lines, line);
        RestartsLeaveNoTrace(W, seed, lines + [line], rs[1..]);
      case Restart =>
        assert Restarted(s) == first;
        assert RunLines(W, first, []) == first;
        RestartsLeaveNoTrace(W, seed, [], rs[1..]);
    }
  }

  // ---- the object ----

  class Runtime {
    const W: World
    var now: Host
    var initial: Host
    var started: int
    var history: seq<string>
    var lab: Lab
    var chain: Chain

    ghost function Value(): Session
      reads this, chain
    {
      Session(now, initial, started, history, lab, chain.View())
    }

    ghost predicate Valid()
      reads this, chain
    {
      W.Sane() && Placed(Value()) && chain.H == W.hashing
    }

    /** NewSession. */
    constructor (W: World, seed: int)
      requires W.Sane()
      ensures Valid() && this.W == W && Value() == NewSession(W, seed) && fresh(chain)
    {
      this.W := W;
      now, initial, started, history, lab := W.boot(seed), W.boot(seed), seed, [], NEW_LAB;
      chain := new Chain(W.hashing);
    }

    method RunLine(input: string) returns (r: Reply)
      requires Valid()
      modifies this, chain
      ensures Valid() && chain == old(chain)
      ensures (Value(), r) == AfterLine(W, old(Value()), input)
    {
      hide ParseSpec, TrimSpace, ByteLen, Canonical, ErrorText;
      var line := TrimSpace(input);
      if line == "" { return QUIET; }
      if ByteLen(line) > MAX_LINE {
        r := RecordLine(line, Fail(2, "command exceeds 16 KiB\n"));
        return;
      }
      var parsed := Parse(line);
      if parsed.Err? {
        r := RecordLine(line, Fail(2, ErrorText(parsed.error) + "\n"));
        return;
      }
      var result := ExecuteLine(line, parsed.value);
      r := RecordLine(line, result);
    }

    method ExecuteLine(line: string, statements: seq<Statement>) returns (result: Reply)
      requires Valid()
      modifies this
      ensures Valid() && chain == old(chain)
      ensures (Value(), result) == Execute(W, old(Value()), line, statements)
    {
      hide Canonical;
      ghost var before := Value();
      var env := Context(now, initial, lab, history, Attached, now.cwd);
      var ended, said := RunStatements(Line(W, chain.View(), started, now.currentUser), env, statements, line);
      var after, mutations := Rules.Apply(W.engine, ended.now);
      now, lab, history := after.(clock := after.clock + SECOND), ended.lab, ended.history;
      result := said.(mutations := mutations);
    }

    method RecordLine(line: string, reply: Reply) returns (r: Reply)
      requires Valid()
      modifies chain
      ensures Valid() && (Value(), r) == Record(W, old(Value()), line, reply)
    {
      var _ := chain.Append(Event(W.id, 0, now.clock, now.clock, "command", now.currentUser, line, reply.exitCode, reply.mutations, "", ""));
      r := reply;
    }

    method Restart()
      requires Valid()
      modifies this
      ensures Valid() && fresh(chain) && Value() == Restarted(old(Value()))
    {
      now := initial;
      chain := new Chain(W.hashing);
      history, lab := [], NEW_LAB;
      started := now.clock;
    }
  }

  /** RunLine's loop over the statements. */
  method RunStatements(L: Line, start: Context, statements: seq<Statement>, line: string) returns (env: Context, said: Reply)
    requires L.world.Sane() && Fit(start)
    ensures (env, said) == Statements(L, start, statements, line, QUIET)
  {
    hide Pipeline, Canonical;
    env, said := start, QUIET;
    for i := 0 to |statements|
      invariant Fit(env)
      invariant Statements(L, env, statements[i..], line, said) == Statements(L, start, statements, line, QUIET)
    {
      var statement := statements[i];
      assert statements[i..][0] == statement && statements[i..][1..] == statements[i + 1..];
      if statement.previous == And && said.exitCode != 0 { continue; }
      if statement.previous == Or && said.exitCode == 0 { continue; }
      var after, result := RunPipeline(L, env, statement.commands);
      said := Reply(result.exitCode, said.stdout + result.stdout, said.stderr + result.stderr, []);
      env := after.(history := after.history + [line], cwd := after.now.cwd);
      if result.exitCode != 0 { return; }
    }
  }

  /** Replay: a fresh session, every command event once more, and the saved chain. */
  method Replay(W: World, events: seq<Event>) returns (session: Runtime, ok: bool)
    requires W.Sane()
    ensures fresh(session) && session.Valid() && session.W == W
    ensures session.Value() == Replayed(W, events)
    ensures ok <==> Verified(W.hashing, events)
  {
    hide AfterLine, Canonical, Verified;
    var seed := DEFAULT_SEED;
    if |events| > 0 { seed := events[0].virtualTimestamp - SECOND; }
    session := new Runtime(W, seed);
    for i := 0 to |events|
      invariant fresh(session) && fresh(session.chain) && session.Valid() && session.W == W
      invariant RunLines(W, session.Value(), Commands(events[i..])) == RunLines(W, NewSession(W, seed), Commands(events))
    {
      CommandsNext(W, session.Value(), events, i);
      if events[i].kind == "command" { var _ := session.RunLine(events[i].command); }
    }
    assert Commands(events[|events|..]) == [];
    ok := session.chain.Restore(events);
  }

  lemma CommandsNext(W: World, s: Session, events: seq<Event>, i: nat)
    requires W.Sane() && Placed(s) && i < |events|
    ensures RunLines(W, s, Commands(events[i..]))
         == RunLines(W, if events[i].kind == "command" then AfterLine(W, s, events[i].command).0 else s, Commands(events[i + 1..]))
  {
    hide AfterLine;
    var rest := Commands(events[i + 1..]);
    assert events[i..][1..] == events[i + 1..];
    if events[i].kind == "command" {
      RunFirst(W, s, events[i].command, rest);
    } else {
      assert [] + rest == rest;
    }
  }
}
