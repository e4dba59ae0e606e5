/** What a participant has handed in stays handed in, over every run of a session. */
module Progress {
  import opened Shell
  import opened Interpreter
  import opened Session
  import opened Evidence

  /** Notes only grow, the first answer stays the root cause, and a submission stays one. */
  ghost predicate Forward(a: Lab, b: Lab) {
    a.notes <= b.notes && (a.rootCause != "" ==> b.rootCause == a.rootCause) && (a.submitted ==> b.submitted)
  }

  /** `lab reset` included: it sets the machine and the hints back, and nothing else of the progress. */
  lemma LabForward(L: Line, c: Context, args: seq<string>)
    requires Fit(c)
    ensures Forward(c.lab, RunLab(L, c, args).0.lab)
  {
    hide Fit, Join, FindHint;
  }

  lemma InvokeForward(L: Line, c: Context, name: string, args: seq<string>, stdin: string)
    requires L.world.Sane() && Fit(c)
    ensures Forward(c.lab, Invoke(L, c, name, args, stdin).0.lab)
  {
    hide RunLab, Fit;
    LabForward(L, c, args);
    if args != [] { LabForward(L, c, args[1..]); }
  }

  lemma CommandForward(L: Line, c: Context, command: Command, stdin: string)
    requires L.world.Sane() && Fit(c) && command.words != []
    ensures Forward(c.lab, RunCommand(L, c, command, stdin).0.lab)
  {
    hide Inputs, Words, Outputs, Invoke;
    var words := Words(L, c, command.words, true);
    match Inputs(L, c, command.redirections, stdin)
    case Refused(_) =>
    case Content(input) => InvokeForward(L, c, words[0], words[1..], input);
  }

  lemma {:induction false} PipelineForward(L: Line, c: Context, commands: seq<Command>, stdin: string, reply: Reply)
    requires L.world.Sane() && Fit(c)
    ensures Forward(c.lab, Pipeline(L, c, commands, stdin, reply).0.lab)
    decreases |commands|
  {
    hide Fit, RunCommand;
    if commands != [] {
      if commands[0].words == [] {
        PipelineForward(L, c, commands[1..], stdin, reply);
      } else {
        CommandForward(L, c, commands[0], stdin);
        var (d, said, ended) := RunCommand(L, c, commands[0], stdin);
        if !ended { PipelineForward(L, d, commands[1..], said.stdout, said); }
      }
    }
  }

  lemma {:induction false} StatementsForward(L: Line, c: Context, ss: seq<Statement>, input: string, said: Reply)
    requires L.world.Sane() && Fit(c)
    ensures Forward(c.lab, Statements(L, c, ss, input, said).0.lab)
    decreases |ss|
  {
    hide Fit, Pipeline;
    if ss != [] {
      if Skipped(ss[0], said.exitCode) {
        StatementsForward(L, c, ss[1..], input, said);
      } else {
        PipelineForward(L, c, ss[0].commands, "", QUIET);
        var (d, reply) := RunStatement(L, c, ss[0].commands, input);
        var all := Reply(reply.exitCode, said.stdout + reply.stdout, said.stderr + reply.stderr, []);
        if reply.exitCode == 0 { StatementsForward(L, d, ss[1..], input, all); }
      }
    }
  }

  lemma LineForward(W: World, s: Session, input: string)
    requires W.Sane() && Placed(s)
    ensures Forward(s.lab, AfterLine(W, s, input).0.lab)
  {
    hide Statements, TrimSpace, ParseSpec;
    var line := TrimSpace(input);
    if ParseSpec(line).Ok? {
      StatementsForward(LineOf(W, s), ContextOf(s), ParseSpec(line).value, line, QUIET);
    }
  }

  /** Whatever lines are run, short of a restart: no note is lost, the root cause does not
      change once it is given, and a submitted session stays submitted. */
  lemma {:induction false} ProgressStays(W: World, s: Session, inputs: seq<string>)
    requires W.Sane() && Placed(s)
    ensures Forward(s.lab, RunLines(W, s, inputs).lab)
    decreases |inputs|
  {
    hide AfterLine, Placed;
    if inputs != [] {
      LineForward(W, s, inputs[0]);
      ProgressStays(W, AfterLine(W, s, inputs[0]).0, inputs[1..]);
    }
  }
}
