/** Pipes, redirections and sudo: what a command's handler is given to read, and where what it
    wrote goes. */
module Pipes {
  import opened Host
  import opened Paths
  import opened FileTree
  import FileMeaning
  import opened Shell
  import opened Interpreter

  /** What the handler of a command is called with, in a context. */
  function Called(L: Line, c: Context, user: string, name: string, args: seq<string>, stdin: string): Reaction {
    L.world.handler(name, args, stdin, View(c.now, Variables(c), c.cwd, user, c.history))
  }

  /** The context that a handler's reaction leaves: its machine, at the old time, with its
      variables, unless a reset has cut them off; and its directory. */
  ghost predicate Left(c: Context, r: Reaction, d: Context) {
    && d.initial == c.initial && d.lab == c.lab && d.history == c.history && d.cwd == r.cwd
    && d.now.clock == c.now.clock && Variables(d) == r.variables
    && d.now == r.host.(clock := c.now.clock, env := d.now.env)
    && (c.orphan.Attached? ==> d.orphan.Attached? && d.now.env == r.variables)
    && (c.orphan.Detached? ==> d.orphan.Detached? && d.now.env == c.now.env)
  }

  predicate Ordinary(name: string) { name != "lab" && name != "sudo" }

  /** A name other than `lab` and `sudo` runs its handler, as the line's user. */
  lemma InvokesHandler(L: Line, c: Context, name: string, args: seq<string>, stdin: string)
    requires L.world.Sane() && Fit(c) && Ordinary(name)
    ensures var (d, reply) := Invoke(L, c, name, args, stdin);
            var r := Called(L, c, L.user, name, args, stdin);
            Left(c, r, d) && reply == r.reply
  {
    hide Canonical, RunLab;
  }

  /** `sudo` runs the handler of its first argument as root, with the other arguments and the same
      input, if the user is root or the rules allow it; otherwise it changes nothing. */
  lemma SudoInvokes(L: Line, c: Context, args: seq<string>, stdin: string)
    requires L.world.Sane() && Fit(c)
    ensures var (d, reply) := Invoke(L, c, "sudo", args, stdin);
            && ((args == [] || args[0] == "sudo" || (L.user != "root" && !L.world.sudoAllowed(c.now, L.user, args[0]))) ==>
                  d == c && reply.exitCode != 0 && reply.stdout == "")
            && (args != [] && Ordinary(args[0]) && (L.user == "root" || L.world.sudoAllowed(c.now, L.user, args[0])) ==>
                  var r := Called(L, c, "root", args[0], args[1..], stdin);
                  Left(c, r, d) && reply == r.reply)
            && (args != [] && args[0] == "lab" && (L.user == "root" || L.world.sudoAllowed(c.now, L.user, "lab")) ==>
                  (d, reply) == Invoke(L, c, "lab", args[1..], stdin))
  {
    hide Canonical, RunLab;
  }

  /** A command without redirections. */
  predicate Bare(command: Command) { command.words != [] && command.redirections == [] }

  /** The words of a command when nothing in them is expanded or matched. */
  predicate Literal(w: string) { '$' !in w && w != "~" && !("~/" <= w) && !HasGlob(w) }

  predicate AllLiteral(words: seq<string>) { forall w | w in words :: Literal(w) }

  lemma LiteralWord(L: Line, c: Context, w: string, first: bool)
    requires Literal(w)
    ensures Word(L, c, w, first) == [w]
  {
    PlainWordStays(w, 0, Variables(c));
  }

  lemma {:induction false} LiteralWords(L: Line, c: Context, words: seq<string>, first: bool)
    requires AllLiteral(words)
    ensures Words(L, c, words, first) == words
    decreases |words|
  {
    hide Word, Literal;
    if words != [] {
      assert words[0] in words && forall w | w in words[1..] :: w in words;
      LiteralWord(L, c, words[0], first);
      LiteralWords(L, c, words[1..], false);
      assert [words[0]] + words[1..] == words;
    }
  }

  /** A plain command, whose words are its handler's arguments. */
  predicate Simple(command: Command) { Bare(command) && AllLiteral(command.words) && Ordinary(command.words[0]) }

  lemma SimpleRuns(L: Line, c: Context, command: Command, stdin: string)
    requires L.world.Sane() && Fit(c) && Simple(command)
    ensures var (d, reply, ended) := RunCommand(L, c, command, stdin);
            var r := Called(L, c, L.user, command.words[0], command.words[1..], stdin);
            !ended && Left(c, r, d) && reply == r.reply
  {
    hide Invoke, Words, Canonical, Literal;
    LiteralWords(L, c, command.words, true);
    InvokesHandler(L, c, command.words[0], command.words[1..], stdin);
    var (d, reply) := Invoke(L, c, command.words[0], command.words[1..], stdin);
    assert d.(now := d.now) == d;
  }

  lemma OneCommand(L: Line, c: Context, command: Command, stdin: string, said: Reply)
    requires L.world.Sane() && Fit(c) && command.words != []
    ensures var (d, reply, _) := RunCommand(L, c, command, stdin); Pipeline(L, c, [command], stdin, said) == (d, reply)
  {
    hide RunCommand, Canonical;
    assert [command][1..] == [];
  }

  /** `a | b`: b's handler reads what a's handler wrote to its standard output, on the machine
      that a left, and the pipeline answers what b answers. */
  lemma PipeFeeds(L: Line, c: Context, a: Command, b: Command)
    requires L.world.Sane() && Fit(c) && Simple(a) && Simple(b)
    ensures exists mid: Context ::
              var first := Called(L, c, L.user, a.words[0], a.words[1..], "");
              var (d, reply) := Pipeline(L, c, [a, b], "", QUIET);
              Left(c, first, mid) &&
              var second := Called(L, mid, L.user, b.words[0], b.words[1..], first.reply.stdout);
              Left(mid, second, d) && reply == second.reply
  {
    hide RunCommand, Canonical, Literal;
    SimpleRuns(L, c, a, "");
    var (mid, said, _) := RunCommand(L, c, a, "");
    assert [a, b][1..] == [b];
    SimpleRuns(L, mid, b, said.stdout);
    OneCommand(L, mid, b, said.stdout, said);
  }

  // ---- a pipeline is the composition of its parts ----

  /** No redirection ends the pipeline. */
  ghost predicate RunsThrough(L: Line, c: Context, commands: seq<Command>, stdin: string)
    requires L.world.Sane() && Fit(c)
    decreases |commands|
  {
    commands == [] ||
    if commands[0].words == [] then RunsThrough(L, c, commands[1..], stdin)
    else
      var (d, reply, ended) := RunCommand(L, c, commands[0], stdin);
      !ended && RunsThrough(L, d, commands[1..], reply.stdout)
  }

  /** The rest of a pipeline runs on the machine and the output that its first part left. */
  lemma {:induction false} PipelineBoth(L: Line, c: Context, xs: seq<Command>, ys: seq<Command>, stdin: string, said: Reply)
    requires L.world.Sane() && Fit(c) && RunsThrough(L, c, xs, stdin)
    ensures (exists x :: x in xs && x.words != []) ==>
              var (d, reply) := Pipeline(L, c, xs, stdin, said);
              Pipeline(L, c, xs + ys, stdin, said) == Pipeline(L, d, ys, reply.stdout, reply)
    ensures (forall x | x in xs :: x.words == []) ==> Pipeline(L, c, xs + ys, stdin, said) == Pipeline(L, c, ys, stdin, said)
    decreases |xs|
  {
    hide RunCommand, Canonical;
    if xs == [] {
      assert xs + ys == ys;
    } else {
      var rest := xs[1..];
      assert (xs + ys)[1..] == rest + ys && (xs + ys)[0] == xs[0] && xs[0] in xs;
      assert forall x :: x in xs <==> x == xs[0] || x in rest;
      if xs[0].words == [] {
        PipelineBoth(L, c, rest, ys, stdin, said);
      } else {
        var (d, reply, _) := RunCommand(L, c, xs[0], stdin);
        PipelineBoth(L, d, rest, ys, reply.stdout, reply);
        if forall x | x in rest :: x.words == [] { NoneRuns(L, d, rest, reply.stdout, reply); }
      }
    }
  }

  lemma {:induction false} NoneRuns(L: Line, c: Context, xs: seq<Command>, stdin: string, said: Reply)
    requires L.world.Sane() && Fit(c) && forall x | x in xs :: x.words == []
    ensures Pipeline(L, c, xs, stdin, said) == (c, said)
    decreases |xs|
  {
    hide RunCommand, Canonical;
    if xs != [] {
      assert xs[0] in xs && forall x | x in xs[1..] :: x in xs;
      NoneRuns(L, c, xs[1..], stdin, said);
    }
  }

  // ---- where the output goes ----

  /** A command with one redirection, to a literal target. */
  predicate To(command: Command, operator: string, target: string) {
    && command.words != [] && |command.redirections| == 1 && Literal(target)
    && command.redirections[0].operator == operator && command.redirections[0].target == target
  }

  lemma LiteralTarget(c: Context, target: string)
    requires Literal(target)
    ensures Expand(target, Variables(c)) == target
  {
    PlainWordStays(target, 0, Variables(c));
  }

  /** The reply and the machine of the command without its redirection. */
  function Plainly(L: Line, c: Context, command: Command, stdin: string): (r: (Context, Reply))
    requires L.world.Sane() && Fit(c) && command.words != []
    ensures Kept(c, r.0)
  {
    var (d, reply, _) := RunCommand(L, c, command.(redirections := []), stdin); (d, reply)
  }

  lemma PlainlyInvokes(L: Line, c: Context, command: Command, stdin: string)
    requires L.world.Sane() && Fit(c) && command.words != []
    ensures var words := Words(L, c, command.words, true);
            words != [] && Plainly(L, c, command, stdin) == Invoke(L, c, words[0], words[1..], stdin)
  {
    hide Invoke, Words, Canonical;
    var words := Words(L, c, command.words, true);
    var (d, reply) := Invoke(L, c, words[0], words[1..], stdin);
    assert d.(now := d.now) == d;
  }

  /** What the file holds after an accepted write. */
  ghost predicate Holds(before: Host, after: Host, name: string, text: string, append: bool)
    requires Canonical(before.cwd)
  {
    var n := FileTree.Normalized(before, name);
    && n.Ok? && n.path in after.files
    && after.files[n.path].content == (if append && n.path in before.files then before.files[n.path].content else "") + text
  }

  lemma WriteHolds(h: Host, name: string, text: string, user: string, append: bool)
    requires Canonical(h.cwd) && WriteFile(h, name, text, user, append).1.Done?
    ensures Holds(h, WriteFile(h, name, text, user, append).0, name, text, append)
  {
    hide Canonical, WriteFile, NormalizePath, FileMeaning.OnlyAncestorsAdded, PrimaryGroup;
    if name != "" { FileMeaning.WriteMeaning(h, name, text, user, append); } else { NoName(h, text, user, append); }
    assert "" + text == text;
  }

  lemma NoName(h: Host, text: string, user: string, append: bool)
    requires Canonical(h.cwd)
    ensures WriteFile(h, "", text, user, append).1.Failed?
  {
    hide Canonical;
  }

  /** `>` leaves the standard output of the command, and nothing else, in the file, `>>` leaves it
      behind what the file held, and `2>` leaves the error text; what went into the file is
      gone from the reply. A refused write ends the pipeline with exit code 1. */
  lemma RedirectHolds(L: Line, c: Context, command: Command, stdin: string, operator: string, target: string)
    requires L.world.Sane() && Fit(c) && To(command, operator, target) && operator in [">", ">>", "2>"]
    ensures var (d, reply) := Plainly(L, c, command, stdin);
            var (e, said, ended) := RunCommand(L, c, command, stdin);
            var text := if operator == "2>" then reply.stderr else reply.stdout;
            && e == d.(now := e.now)
            && (ended <==> !WriteFile(d.now, target, text, L.user, operator == ">>").1.Done?)
            && (ended ==> said.exitCode == 1 && said.stdout == "")
            && (!ended ==>
                  && Holds(d.now, e.now, target, text, operator == ">>")
                  && said.exitCode == reply.exitCode && said.mutations == reply.mutations
                  && said.stdout == (if operator == "2>" then reply.stdout else "")
                  && said.stderr == (if operator == "2>" then "" else reply.stderr))
  {
    hide Invoke, Words, Canonical, WriteFile, Expand, Literal, Holds;
    var (d, reply) := Plainly(L, c, command, stdin);
    PlainlyInvokes(L, c, command, stdin);
    LiteralTarget(d, target);
    var text := if operator == "2>" then reply.stderr else reply.stdout;
    if WriteFile(d.now, target, text, L.user, operator == ">>").1.Done? { WriteHolds(d.now, target, text, L.user, operator == ">>"); }
    OneOutput(L, d, command.redirections, reply);
  }

  lemma OneOutput(L: Line, d: Context, rs: seq<Redirection>, reply: Reply)
    requires Canonical(d.now.cwd) && |rs| == 1
    ensures Outputs(L, d.now, Variables(d), rs, reply) == OutputStep(L, d.now, Variables(d), rs[0], reply)
  {
    hide OutputStep, Canonical;
    assert rs[1..] == [];
  }

  /** `2>&1` puts the error text behind the standard output. */
  lemma MergeJoins(L: Line, c: Context, command: Command, stdin: string, target: string)
    requires L.world.Sane() && Fit(c) && To(command, "2>&1", target)
    ensures var (d, reply) := Plainly(L, c, command, stdin);
            RunCommand(L, c, command, stdin) == (d, Reply(reply.exitCode, reply.stdout + reply.stderr, "", reply.mutations), false)
  {
    hide Invoke, Words, Canonical, Expand, Literal;
    var (d, reply) := Plainly(L, c, command, stdin);
    PlainlyInvokes(L, c, command, stdin);
    OneOutput(L, d, command.redirections, reply);
    assert d.(now := d.now) == d;
  }

  /** `<` gives the command the content of the file to read, whatever came through the pipe; a file
      that cannot be read ends the pipeline before the command runs. */
  lemma InputReads(L: Line, c: Context, command: Command, stdin: string, target: string)
    requires L.world.Sane() && Fit(c) && To(command, "<", target)
    ensures match ReadFile(c.now, target, L.user)
            case Refused(message) => RunCommand(L, c, command, stdin) == (c, Fail(1, message + "\n"), true)
            case Content(text) => var (d, reply) := Plainly(L, c, command, text); RunCommand(L, c, command, stdin) == (d, reply, false)
  {
    hide Invoke, Words, Canonical, Expand, Literal, ReadFile;
    LiteralTarget(c, target);
    OneInput(L, c, command.redirections, stdin);
    if ReadFile(c.now, target, L.user).Content? {
      var text := ReadFile(c.now, target, L.user).text;
      var (d, reply) := Plainly(L, c, command, text);
      PlainlyInvokes(L, c, command, text);
      OneOutput(L, d, command.redirections, reply);
      assert d.(now := d.now) == d;
    }
  }

  lemma OneInput(L: Line, c: Context, rs: seq<Redirection>, stdin: string)
    requires Canonical(c.now.cwd) && |rs| == 1 && rs[0].operator == "<"
    ensures Inputs(L, c, rs, stdin) == ReadFile(c.now, Expand(rs[0].target, Variables(c)), L.user)
  {
    hide ReadFile, Expand, Canonical;
    assert rs[1..] == [];
  }

  /** Several redirections are carried out one after the other, each on the text that the ones
      before it have left. */
  lemma {:induction false} OutputsBoth(L: Line, now: Host, variables: map<string, string>, xs: seq<Redirection>, ys: seq<Redirection>, reply: Reply)
    requires Canonical(now.cwd)
    ensures var o := Outputs(L, now, variables, xs, reply);
            Outputs(L, now, variables, xs + ys, reply) == if o.failed then o else Outputs(L, o.now, variables, ys, o.reply)
    decreases |xs|
  {
    hide OutputStep, Canonical;
    if xs == [] {
      assert xs + ys == ys;
    } else {
      assert (xs + ys)[1..] == xs[1..] + ys && (xs + ys)[0] == xs[0];
      var step := OutputStep(L, now, variables, xs[0], reply);
      if !step.failed { OutputsBoth(L, step.now, variables, xs[1..], ys, step.reply); }
    }
  }

  lemma {:induction false} InputsBoth(L: Line, c: Context, xs: seq<Redirection>, ys: seq<Redirection>, input: string)
    requires Canonical(c.now.cwd)
    ensures Inputs(L, c, xs + ys, input) ==
            match Inputs(L, c, xs, input) case Refused(m) => Refused(m) case Content(text) => Inputs(L, c, ys, text)
    decreases |xs|
  {
    hide ReadFile, Expand, Canonical;
    if xs == [] {
      assert xs + ys == ys;
    } else {
      assert (xs + ys)[1..] == xs[1..] + ys && (xs + ys)[0] == xs[0];
      if xs[0].operator != "<" {
        InputsBoth(L, c, xs[1..], ys, input);
      } else {
        var read := ReadFile(c.now, Expand(xs[0].target, Variables(c)), L.user);
        if read.Content? { InputsBoth(L, c, xs[1..], ys, read.text); }
      }
    }
  }

  /** `a > f | b`: once the write is accepted, b reads the empty text. */
  lemma RedirectedPipeIsEmpty(L: Line, c: Context, a: Command, b: Command, operator: string, target: string)
    requires L.world.Sane() && Fit(c) && To(a, operator, target) && operator in [">", ">>"] && Simple(b)
    requires !RunCommand(L, c, a, "").2
    ensures var mid := RunCommand(L, c, a, "").0;
            var (d, reply) := Pipeline(L, c, [a, b], "", QUIET);
            var second := Called(L, mid, L.user, b.words[0], b.words[1..], "");
            Left(mid, second, d) && reply == second.reply
  {
    hide RunCommand, Canonical, Literal;
    RedirectHolds(L, c, a, "", operator, target);
    var (mid, said, _) := RunCommand(L, c, a, "");
    assert [a, b][1..] == [b];
    SimpleRuns(L, mid, b, said.stdout);
    OneCommand(L, mid, b, said.stdout, said);
  }
}
