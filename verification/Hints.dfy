/** What hints cost, over every run of a session. */
module Hints {
  import opened Shell
  import opened Interpreter
  import opened Session
  import opened Evidence

  /** The costs of the used hints from the `i`-th on; of hints with one id the first counts. */
  function CostFrom(hints: seq<Hint>, i: nat, used: set<string>): int
    requires i <= |hints|
    decreases |hints| - i
  {
    if i == |hints| then 0
    else (if hints[i].id in used && FindHint(hints, hints[i].id) == i then hints[i].cost else 0) + CostFrom(hints, i + 1, used)
  }

  /** The cost charged is that of the used hints, and only hints of the scenario are used. */
  ghost predicate Charged(W: World, lab: Lab) {
    lab.hintCost == CostFrom(W.hints, 0, lab.used) && forall id | id in lab.used :: FindHint(W.hints, id) >= 0
  }

  lemma {:induction false} CostOfOneMore(hints: seq<Hint>, i: nat, used: set<string>, j: nat)
    requires i <= |hints| && j < |hints| && FindHint(hints, hints[j].id) == j && hints[j].id !in used
    ensures CostFrom(hints, i, used + {hints[j].id}) == CostFrom(hints, i, used) + if i <= j then hints[j].cost else 0
    decreases |hints| - i
  {
    if i < |hints| { CostOfOneMore(hints, i + 1, used, j); }
  }

  lemma {:induction false} NoCost(hints: seq<Hint>, i: nat)
    requires i <= |hints|
    ensures CostFrom(hints, i, {}) == 0
    decreases |hints| - i
  {
    if i < |hints| { NoCost(hints, i + 1); }
  }

  /** A hint is charged when it is taken, and not a second time. */
  lemma TakeHintCharged(L: Line, c: Context, id: string)
    requires Charged(L.world, c.lab)
    ensures Charged(L.world, TakeHint(L, c, id).0.lab)
  {
    var j := FindHint(L.world.hints, id);
    if j >= 0 && id !in c.lab.used { CostOfOneMore(L.world.hints, 0, c.lab.used, j); }
  }

  lemma RunLabCharged(L: Line, c: Context, args: seq<string>)
    requires Fit(c) && Charged(L.world, c.lab)
    ensures Charged(L.world, RunLab(L, c, args).0.lab)
  {
    hide TakeHint, Join, Fit;
    NoCost(L.world.hints, 0);
    if |args| >= 2 { TakeHintCharged(L, c, args[1]); }
  }

  lemma InvokeCharged(L: Line, c: Context, name: string, args: seq<string>, stdin: string)
    requires L.world.Sane() && Fit(c) && Charged(L.world, c.lab)
    ensures Charged(L.world, Invoke(L, c, name, args, stdin).0.lab)
  {
    hide RunLab, Fit, Charged;
    RunLabCharged(L, c, args);
    if args != [] { RunLabCharged(L, c, args[1..]); }
  }

  lemma CommandCharged(L: Line, c: Context, command: Command, stdin: string)
    requires L.world.Sane() && Fit(c) && command.words != [] && Charged(L.world, c.lab)
    ensures Charged(L.world, RunCommand(L, c, command, stdin).0.lab)
  {
    hide Charged, Inputs, Words, Outputs, Invoke;
    var words := Words(L, c, command.words, true);
    match Inputs(L, c, command.redirections, stdin)
    case Refused(_) =>
    case Content(input) => InvokeCharged(L, c, words[0], words[1..], input);
  }

  lemma {:induction false} PipelineCharged(L: Line, c: Context, commands: seq<Command>, stdin: string, reply: Reply)
    requires L.world.Sane() && Fit(c) && Charged(L.world, c.lab)
    ensures Charged(L.world, Pipeline(L, c, commands, stdin, reply).0.lab)
    decreases |commands|
  {
    hide Fit, Charged, RunCommand;
    if commands != [] {
      if commands[0].words == [] {
        PipelineCharged(L, c, commands[1..], stdin, reply);
      } else {
        CommandCharged(L, c, commands[0], stdin);
        var (d, said, ended) := RunCommand(L, c, commands[0], stdin);
        if !ended { PipelineCharged(L, d, commands[1..], said.stdout, said); }
      }
    }
  }

  lemma {:induction false} StatementsCharged(L: Line, c: Context, ss: seq<Statement>, input: string, said: Reply)
    requires L.world.Sane() && Fit(c) && Charged(L.world, c.lab)
    ensures Charged(L.world, Statements(L, c, ss, input, said).0.lab)
    decreases |ss|
  {
    hide Fit, Charged, Pipeline;
    if ss != [] {
      if Skipped(ss[0], said.exitCode) {
        StatementsCharged(L, c, ss[1..], input, said);
      } else {
        PipelineCharged(L, c, ss[0].commands, "", QUIET);
        var (d, reply) := RunStatement(L, c, ss[0].commands, input);
        var all := Reply(reply.exitCode, said.stdout + reply.stdout, said.stderr + reply.stderr, []);
        if reply.exitCode == 0 { StatementsCharged(L, d, ss[1..], input, all); }
      }
    }
  }

  lemma LineCharged(W: World, s: Session, input: string)
    requires W.Sane() && Placed(s) && Charged(W, s.lab)
    ensures Charged(W, AfterLine(W, s, input).0.lab)
  {
    hide Charged, Statements, TrimSpace, ParseSpec;
    var line := TrimSpace(input);
    if ParseSpec(line).Ok? {
      StatementsCharged(LineOf(W, s), ContextOf(s), ParseSpec(line).value, line, QUIET);
    }
  }

  lemma {:induction false} StaysCharged(W: World, s: Session, inputs: seq<string>)
    requires W.Sane() && Placed(s) && Charged(W, s.lab)
    ensures Charged(W, RunLines(W, s, inputs).lab)
    decreases |inputs|
  {
    hide Charged, AfterLine, Placed;
    if inputs != [] {
      LineCharged(W, s, inputs[0]);
      StaysCharged(W, AfterLine(W, s, inputs[0]).0, inputs[1..]);
    }
  }

  /** In every session, whatever its lines did, resets included: the hint cost is the
      sum of the costs of the hints marked as used. */
  lemma HintCostIsTheirSum(W: World, seed: int, inputs: seq<string>)
    requires W.Sane()
    ensures var lab := RunLines(W, NewSession(W, seed), inputs).lab;
            && lab.hintCost == CostFrom(W.hints, 0, lab.used)
            && forall id | id in lab.used :: FindHint(W.hints, id) >= 0
  {
    hide RunLines, CostFrom;
    NoCost(W.hints, 0);
    StaysCharged(W, NewSession(W, seed), inputs);
  }
}
