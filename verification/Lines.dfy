/** What one line leaves behind: what is kept of its text, what is recorded, how statements add
    up, and that the rules and the clock follow. */
module Lines {
  import opened Text
  import opened Host
  import opened Paths
  import opened Shell
  import opened Interpreter
  import opened Evidence
  import opened Session
  import Rules

  // ---- trimming ----

  predicate Blank(s: string) { forall c | c in s :: IsSpace(c) }

  lemma {:induction false} LeftTrimmed(s: string)
    ensures exists front :: Blank(front) && s == front + TrimLeft(s)
  {
    hide IsSpace;
    if s != "" && IsSpace(s[0]) {
      LeftTrimmed(s[1..]);
      var front :| Blank(front) && s[1..] == front + TrimLeft(s[1..]);
      assert s == ([s[0]] + front) + TrimLeft(s);
    } else {
      assert s == "" + TrimLeft(s);
    }
  }

  lemma {:induction false} RightTrimmed(s: string)
    ensures exists back :: Blank(back) && s == TrimRight(s) + back
  {
    hide IsSpace;
    if s != "" && IsSpace(s[|s| - 1]) {
      var init := s[..|s| - 1];
      RightTrimmed(init);
      var back :| Blank(back) && init == TrimRight(init) + back;
      assert s == TrimRight(s) + (back + [s[|s| - 1]]);
    } else {
      assert s == TrimRight(s) + "";
    }
  }

  /** A line is its trimmed form with spaces around it, and the trimmed form begins and ends with none. */
  lemma TrimMeaning(s: string)
    ensures exists front, back :: Blank(front) && Blank(back) && s == front + TrimSpace(s) + back
    ensures var t := TrimSpace(s); t != "" ==> !IsSpace(t[0]) && !IsSpace(t[|t| - 1])
    ensures TrimSpace(s) == "" <==> Blank(s)
  {
    hide IsSpace;
    LeftTrimmed(s);
    RightTrimmed(TrimLeft(s));
    var front :| Blank(front) && s == front + TrimLeft(s);
    var back :| Blank(back) && TrimLeft(s) == TrimSpace(s) + back;
    var t := TrimSpace(s);
    assert s == front + t + back;
    if t != "" { assert t[0] == TrimLeft(s)[0] && t[0] in t && t[0] in s; }
    else { assert s == front + back; }
  }

  /** The characters that count as spaces, by their codes: those of Unicode's White_Space property. */
  lemma SpacesExact(c: char)
    ensures var n := c as int;
            IsSpace(c) <==> 9 <= n <= 13 || n == 32 || n == 0x85 || n == 0xa0 || n == 0x1680 || 0x2000 <= n <= 0x200a
                            || n == 0x2028 || n == 0x2029 || n == 0x202f || n == 0x205f || n == 0x3000
  {}

  // ---- what is recorded ----

  /** A line that is too long or does not parse changes nothing but the log, and answers 2. */
  lemma RejectedLine(W: World, s: Session, input: string)
    requires W.Sane() && Placed(s) && TrimSpace(input) != ""
    ensures var line := TrimSpace(input);
            Rejected(line) <==> ByteLen(line) > 16384 || ParseSpec(line).Err?
    ensures Rejected(TrimSpace(input)) ==>
              var (after, reply) := AfterLine(W, s, input);
              after == s.(log := after.log) && reply.exitCode == 2 && reply.stdout == "" && reply.mutations == []
  {
    hide TrimSpace, ParseSpec, ByteLen, Appended, ErrorText;
  }

  /** The event of a line: whose, when, by whom, what, with which exit code and mutations; it is
      the one behind the chain's last. */
  lemma EventExact(W: World, s: Session, input: string)
    requires W.Sane() && Placed(s) && TrimSpace(input) != ""
    ensures var (after, reply) := AfterLine(W, s, input);
            var n := |s.log.events|;
            && |after.log.events| == n + 1 && after.log.events[..n] == s.log.events
            && var e := after.log.events[n];
               && e.sessionID == W.id && e.sequence == n + 1 && e.kind == "command"
               && e.actor == after.now.currentUser && e.command == TrimSpace(input)
               && e.timestamp == e.virtualTimestamp == after.now.clock
               && e.exitCode == reply.exitCode && e.mutations == reply.mutations
  {
    hide TrimSpace, ParseSpec, ByteLen, Execute, ErrorText;
  }

  /** The machine after the statements of a line that runs, before its rules. */
  function BeforeRules(W: World, s: Session, ss: seq<Statement>, line: string): (r: (Context, Reply))
    requires W.Sane() && Placed(s)
    ensures Canonical(r.0.now.cwd)
  {
    Statements(LineOf(W, s), ContextOf(s), ss, line, QUIET)
  }

  /** A line that runs: its statements, then the rules on the machine they left, then one second.
      Progress and history are the statements'; the mutations are the rules'. */
  lemma RanLine(W: World, s: Session, input: string, ss: seq<Statement>)
    requires W.Sane() && Placed(s) && TrimSpace(input) != ""
    requires ByteLen(TrimSpace(input)) <= 16384 && ParseSpec(TrimSpace(input)) == Shell.Ok(ss)
    ensures var (after, reply) := AfterLine(W, s, input);
            var (c, said) := BeforeRules(W, s, ss, TrimSpace(input));
            var (ruled, mutations) := Rules.ApplyRules(W.engine, c.now, W.engine.rules);
            && after.now == ruled.(clock := c.now.clock + 1_000_000_000)
            && after.lab == c.lab && after.history == c.history && after.initial == s.initial && after.started == s.started
            && reply == said.(mutations := mutations)
  {
    hide TrimSpace, ParseSpec, ByteLen, Statements, Rules.ApplyRules, Appended;
  }

  // ---- statements ----

  /** A statement's pipeline reads the empty text; the line goes behind the history, and the directory
      that the next statement starts in is the machine's. */
  lemma StatementLeaves(L: Line, c: Context, commands: seq<Command>, input: string)
    requires L.world.Sane() && Fit(c)
    ensures var (d, reply) := Pipeline(L, c, commands, "", QUIET);
            RunStatement(L, c, commands, input) == (d.(history := d.history + [input], cwd := d.now.cwd), reply)
  {
    hide Pipeline, Canonical;
  }

  lemma OneStatement(L: Line, c: Context, b: Statement, input: string, said: Reply)
    requires L.world.Sane() && Fit(c)
    ensures var (d, reply) := RunStatement(L, c, b.commands, input);
            Statements(L, c, [b], input, said) ==
            if Skipped(b, said.exitCode) then (c, said)
            else (d, Reply(reply.exitCode, said.stdout + reply.stdout, said.stderr + reply.stderr, []))
  {
    hide RunStatement, Canonical;
    assert [b][1..] == [];
  }

  /** `a ; b` and `a && b`: both outputs one behind the other and b's exit code, if a succeeds; only what
      a answered otherwise. `a || b`: only a, either way. */
  lemma TwoStatements(L: Line, c: Context, a: Statement, b: Statement, input: string)
    requires L.world.Sane() && Fit(c) && a.previous == None && b.previous != None
    ensures var (d, first) := RunStatement(L, c, a.commands, input);
            var (e, second) := RunStatement(L, d, b.commands, input);
            Statements(L, c, [a, b], input, QUIET) ==
            if first.exitCode != 0 || b.previous == Or then (d, Reply(first.exitCode, first.stdout, first.stderr, []))
            else (e, Reply(second.exitCode, first.stdout + second.stdout, first.stderr + second.stderr, []))
  {
    hide RunStatement, Canonical;
    assert [a, b][1..] == [b];
    var (d, first) := RunStatement(L, c, a.commands, input);
    assert "" + first.stdout == first.stdout && "" + first.stderr == first.stderr;
    OneStatement(L, d, b, input, Reply(first.exitCode, first.stdout, first.stderr, []));
  }

  /** Longer lists go on in the same way: what a list has said stands in front of what the rest says. */
  lemma {:induction false} SaidInFront(L: Line, c: Context, ss: seq<Statement>, input: string, said: Reply)
    requires L.world.Sane() && Fit(c)
    ensures var (d, alone) := Statements(L, c, ss, input, Reply(said.exitCode, "", "", said.mutations));
            var (e, both) := Statements(L, c, ss, input, said);
            d == e && both == alone.(stdout := said.stdout + alone.stdout, stderr := said.stderr + alone.stderr)
    decreases |ss|
  {
    hide RunStatement, Canonical;
    var bare := Reply(said.exitCode, "", "", said.mutations);
    if ss == [] {
      assert said.stdout + "" == said.stdout && said.stderr + "" == said.stderr;
    } else if Skipped(ss[0], said.exitCode) {
      SaidInFront(L, c, ss[1..], input, said);
    } else {
      var (d, reply) := RunStatement(L, c, ss[0].commands, input);
      var all := Reply(reply.exitCode, said.stdout + reply.stdout, said.stderr + reply.stderr, []);
      var one := Reply(reply.exitCode, bare.stdout + reply.stdout, bare.stderr + reply.stderr, []);
      assert one.stdout == reply.stdout && one.stderr == reply.stderr;
      if reply.exitCode == 0 {
        SaidInFront(L, d, ss[1..], input, all);
        SaidInFront(L, d, ss[1..], input, one);
        var rest := Statements(L, d, ss[1..], input, Reply(0, "", "", [])).1;
        assert said.stdout + reply.stdout + rest.stdout == said.stdout + (reply.stdout + rest.stdout);
        assert said.stderr + reply.stderr + rest.stderr == said.stderr + (reply.stderr + rest.stderr);
      }
    }
  }
}
