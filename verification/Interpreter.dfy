/** How internal/runtime/session.go runs the statements of one line. Commands are
    a deterministic function of what their environment shows them; `lab` and `sudo`
    are dispatched here, as internal/command/command.go does. */
module Interpreter {
  import opened Text
  import opened Host
  import opened Paths
  import opened FileTree
  import opened Shell
  import Evidence
  import Rules

  datatype Reply = Reply(exitCode: int, stdout: string, stderr: string, mutations: seq<string>)

  const QUIET := Reply(0, "", "", [])

  function Fail(code: int, message: string): Reply { Reply(code, "", message, []) }

  function Say(text: string, mutations: seq<string>): Reply { Reply(0, text, "", mutations) }

  // ---- what stays the same during a line ----

  /** command.Env, as a command sees it. */
  datatype View = View(host: Host, variables: map<string, string>, cwd: string, user: string, history: seq<string>)

  /** What a command leaves behind. */
  datatype Reaction = Reaction(host: Host, variables: map<string, string>, cwd: string, reply: Reply)

  datatype Hint = Hint(id: string, cost: int, unlockAfter: int, text: string)

  /** A scenario package and the code around the session. */
  datatype World = World(
    id: string,
    boot: int -> Host,
    handler: (string, seq<string>, string, View) -> Reaction,
    sudoAllowed: (Host, string, string) -> bool,
    glob: (Host, string, string) -> seq<string>,
    status: (Host, int) -> string,
    check: (Host, int) -> string,
    briefing: string,
    hints: seq<Hint>,
    engine: Rules.Engine,
    hashing: Evidence.Hashing)
  {
    /** A fresh machine shows its seed, and `cd` is the only way to move. */
    ghost predicate Sane() {
      && (forall t :: boot(t).clock == t && Canonical(boot(t).cwd))
      && (forall name, args, stdin, view: View :: Canonical(view.host.cwd) ==> Canonical(handler(name, args, stdin, view).host.cwd))
    }
  }

  datatype Line = Line(world: World, log: Evidence.Log, started: int, user: string)

  // ---- what changes ----

  /** The participant's progress: the map Hints as the set of its true keys. */
  datatype Lab = Lab(used: set<string>, hintCost: int, notes: seq<string>, rootCause: string, resolution: string,
                     submitted: bool, submittedAt: int)

  const ZERO_TIME: int := 0
  const NEW_LAB := Lab({}, 0, [], "", "", false, ZERO_TIME)

  datatype Orphan = Attached | Detached(variables: map<string, string>)

  /** The environment of a line. `orphan` is Attached while env.Variables is the
      very map State.Env; after a reset it is the map that State.Env used to be. */
  datatype Context = Context(now: Host, initial: Host, lab: Lab, history: seq<string>, orphan: Orphan, cwd: string)

  function Variables(c: Context): map<string, string> {
    if c.orphan.Attached? then c.now.env else c.orphan.variables
  }

  ghost predicate Fit(c: Context) { Canonical(c.now.cwd) && Canonical(c.initial.cwd) }

  /** No command writes the snapshot, and only reset moves the clock. */
  ghost predicate Kept(c: Context, d: Context) {
    && Fit(d) && d.initial == c.initial
    && (d.now.clock == c.now.clock || d.now.clock == c.initial.clock)
  }

  // ---- lab ----

  function Join(parts: seq<string>, separator: string): string {
    if parts == [] then ""
    else if |parts| == 1 then parts[0]
    else parts[0] + separator + Join(parts[1..], separator)
  }

  function FindHint(hints: seq<Hint>, id: string): (i: int)
    ensures -1 <= i < |hints|
    ensures i >= 0 ==> hints[i].id == id && forall j | 0 <= j < i :: hints[j].id != id
    ensures i == -1 ==> forall h | h in hints :: h.id != id
  {
    if hints == [] then -1
    else if hints[0].id == id then 0
    else
      var i := FindHint(hints[1..], id);
      if i < 0 then -1 else i + 1
  }

  function TakeHint(L: Line, c: Context, id: string): (Context, Reply) {
    var i := FindHint(L.world.hints, id);
    if i < 0 then (c, Fail(1, "unknown hint\n"))
    else
      var hint := L.world.hints[i];
      if hint.id in c.lab.used then (c, Say("Hint already used.\n", []))
      else if c.now.clock - L.started < hint.unlockAfter then (c, Fail(1, "Hint is not unlocked yet.\n"))
      else
        (c.(lab := c.lab.(used := c.lab.used + {hint.id}, hintCost := c.lab.hintCost + hint.cost)),
         Say(hint.text + "\n", ["hint:" + hint.id]))
  }

  /** State.Reset: the machine is the snapshot again, and env.Variables keeps the old map. */
  function ResetMachine(c: Context): Context {
    c.(now := c.initial, orphan := Detached(Variables(c)), lab := c.lab.(used := {}, hintCost := 0))
  }

  function RunLab(L: Line, c: Context, given: seq<string>): (r: (Context, Reply))
    requires Fit(c)
    ensures Kept(c, r.0)
  {
    var args := if given == [] then ["status"] else given;
    var text := Join(args[1..], " ");
    match args[0]
    case "briefing" => (c, Say(L.world.briefing, []))
    case "objectives" => (c, Say(L.world.status(c.now, c.lab.hintCost), []))
    case "status" => (c, Say(L.world.status(c.now, c.lab.hintCost), []))
    case "hint" => if |args| < 2 then (c, Fail(1, "lab hint: specify a hint id\n")) else TakeHint(L, c, args[1])
    case "note" => (c.(lab := c.lab.(notes := c.lab.notes + [text])), Say("Note saved.\n", ["note"]))
    case "answer" =>
      if c.lab.rootCause == "" then (c.(lab := c.lab.(rootCause := text)), Say("Answer saved.\n", ["answer"]))
      else (c.(lab := c.lab.(resolution := text)), Say("Answer saved.\n", ["answer"]))
    case "check" => (c, Say(L.world.check(c.now, c.lab.hintCost), []))
    case "evidence" =>
      if Evidence.Verified(L.world.hashing, L.log.events) then
        (c, Say("Evidence chain verified (" + Rules.Itoa(|L.log.events|) + " events).\n", []))
      else (c, Fail(1, "evidence chain broken\n"))
    case "reset" => (ResetMachine(c), Say("Session reset.\n", ["reset"]))
    case "submit" =>
      (c.(lab := c.lab.(submitted := true, submittedAt := c.now.clock)), Say("Submission recorded.\n", ["submit"]))
    case _ => (c, Fail(1, "lab: unsupported subcommand " + args[0] + "\n"))
  }

  // ---- one command ----

  function Handle(L: Line, c: Context, user: string, name: string, args: seq<string>, stdin: string): (r: (Context, Reply))
    requires L.world.Sane() && Fit(c)
    ensures Kept(c, r.0)
  {
    var seen := L.world.handler(name, args, stdin, View(c.now, Variables(c), c.cwd, user, c.history));
    var machine := seen.host.(clock := c.now.clock);
    var after :=
      if c.orphan.Attached? then c.(now := machine.(env := seen.variables))
      else c.(now := machine.(env := c.now.env), orphan := Detached(seen.variables));
    (after.(cwd := seen.cwd), seen.reply)
  }

  /** Registry.Run for every name but sudo. */
  function Direct(L: Line, c: Context, user: string, name: string, args: seq<string>, stdin: string): (r: (Context, Reply))
    requires L.world.Sane() && Fit(c)
    ensures Kept(c, r.0)
  {
    if name == "lab" then RunLab(L, c, args) else Handle(L, c, user, name, args, stdin)
  }

  /** runSudo: as root for the length of one command, which may be any but sudo. */
  function Sudo(L: Line, c: Context, args: seq<string>, stdin: string): (r: (Context, Reply))
    requires L.world.Sane() && Fit(c)
    ensures Kept(c, r.0)
  {
    if args == [] then (c, Fail(1, "sudo: a command is required\n"))
    else if L.user != "root" && !L.world.sudoAllowed(c.now, L.user, args[0]) then
      (c, Fail(1, L.user + " is not in the sudoers file. This incident will be reported.\n"))
    else if args[0] == "sudo" then (c, Fail(1, "sudo: nested sudo is not supported\n"))
    else Direct(L, c, "root", args[0], args[1..], stdin)
  }

  function Invoke(L: Line, c: Context, name: string, args: seq<string>, stdin: string): (r: (Context, Reply))
    requires L.world.Sane() && Fit(c)
    ensures Kept(c, r.0)
  {
    if name == "sudo" then Sudo(L, c, args, stdin) else Direct(L, c, L.user, name, args, stdin)
  }

  // ---- words ----

  function Value(variables: map<string, string>, key: string): string {
    if key in variables then variables[key] else ""
  }

  predicate NameChar(c: char) { 'A' <= c <= 'Z' || 'a' <= c <= 'z' || '0' <= c <= '9' || c == '_' }

  /** Where the run of name characters from `i` on ends. */
  function NameEnd(word: string, i: nat): (n: nat)
    requires i <= |word|
    ensures i <= n <= |word|
    ensures forall k | i <= k < n :: NameChar(word[k])
    ensures n < |word| ==> !NameChar(word[n])
    decreases |word| - i
  {
    if i < |word| && NameChar(word[i]) then NameEnd(word, i + 1) else i
  }

  const OPEN_BRACE := '\U{7b}'
  const CLOSE_BRACE := '\U{7d}'

  /** The next closing brace, as a position in `word`. */
  function BraceAt(word: string, from: nat): (i: int)
    requires from <= |word|
    ensures i == -1 || from <= i < |word|
    decreases |word| - from
  {
    if from == |word| then -1 else if word[from] == CLOSE_BRACE then from else BraceAt(word, from + 1)
  }

  /** One round of expand's loop: the text written and the next position. */
  function ExpandStep(word: string, i: nat, variables: map<string, string>): (r: (string, nat))
    requires i < |word|
    ensures i < r.1 <= |word|
  {
    if word[i] != '$' then ([word[i]], i + 1)
    else if i + 1 < |word| && word[i + 1] == OPEN_BRACE then
      var end := BraceAt(word, i + 2);
      if end < 0 then ("$", i + 1) else (Value(variables, word[i + 2..end]), end + 1)
    else
      var end := NameEnd(word, i + 1);
      if end == i + 1 then ("$", i + 1) else (Value(variables, word[i + 1..end]), end)
  }

  function ExpandFrom(word: string, i: nat, variables: map<string, string>): string
    requires i <= |word|
    decreases |word| - i
  {
    if i == |word| then ""
    else
      var (text, next) := ExpandStep(word, i, variables);
      text + ExpandFrom(word, next, variables)
  }

  function Expand(word: string, variables: map<string, string>): string {
    if word == "~" then (if "HOME" in variables then variables["HOME"] else "/root")
    else if "~/" <= word then (if Value(variables, "HOME") == "" then "/root" else Value(variables, "HOME")) + word[1..]
    else ExpandFrom(word, 0, variables)
  }

  predicate HasGlob(word: string) { '*' in word || '?' in word || '[' in word }

  /** One word of a command, expanded; every word but the first may match files. */
  function Word(L: Line, c: Context, word: string, first: bool): (r: seq<string>)
    ensures first ==> |r| == 1
  {
    var expanded := Expand(word, Variables(c));
    var matches := L.world.glob(c.now, expanded, L.user);
    if !first && HasGlob(expanded) && matches != [] then matches else [expanded]
  }

  function Words(L: Line, c: Context, words: seq<string>, first: bool): (r: seq<string>)
    ensures first && words != [] ==> r != []
  {
    if words == [] then [] else Word(L, c, words[0], first) + Words(L, c, words[1..], false)
  }

  // ---- redirections ----

  datatype Input = Content(text: string) | Refused(message: string)

  function ReadFile(h: Host, name: string, user: string): Input
    requires Canonical(h.cwd)
  {
    var n := FileTree.Normalized(h, name);
    if !n.Ok? then Refused("path is empty")
    else if n.path !in h.files || h.files[n.path].directory then Refused(name + ": No such file or directory")
    else if !CanRead(h, h.files[n.path], user) then Refused(name + ": Permission denied")
    else Content(h.files[n.path].content)
  }

  /** The last `<` decides what the command reads. */
  function Inputs(L: Line, c: Context, rs: seq<Redirection>, input: string): Input
    requires Canonical(c.now.cwd)
  {
    if rs == [] then Content(input)
    else if rs[0].operator != "<" then Inputs(L, c, rs[1..], input)
    else
      match ReadFile(c.now, Expand(rs[0].target, Variables(c)), L.user)
      case Refused(message) => Refused(message)
      case Content(text) => Inputs(L, c, rs[1..], text)
  }

  datatype Output = Output(now: Host, reply: Reply, failed: bool)

  function WriteOut(h: Host, target: string, text: string, user: string, append: bool, rest: Reply): (r: Output)
    requires Canonical(h.cwd)
    ensures r.now == h.(files := r.now.files)
  {
    var (after, outcome) := WriteFile(h, target, text, user, append);
    match outcome
    case Done => Output(after, rest, false)
    case Failed(PathEmpty) => Output(after, Fail(1, "path is empty\n"), true)
    case Failed(_) => Output(after, Fail(1, target + ": Permission denied\n"), true)
  }

  function OutputStep(L: Line, now: Host, variables: map<string, string>, r: Redirection, reply: Reply): (o: Output)
    requires Canonical(now.cwd)
    ensures o.now == now.(files := o.now.files)
  {
    var target := Expand(r.target, variables);
    if r.operator == ">" || r.operator == ">>" then
      WriteOut(now, target, reply.stdout, L.user, r.operator == ">>", reply.(stdout := ""))
    else if r.operator == "2>" then
      WriteOut(now, target, reply.stderr, L.user, false, reply.(stderr := ""))
    else if r.operator == "2>&1" then
      Output(now, reply.(stdout := reply.stdout + reply.stderr, stderr := ""), false)
    else Output(now, reply, false)
  }

  function Outputs(L: Line, now: Host, variables: map<string, string>, rs: seq<Redirection>, reply: Reply): (o: Output)
    requires Canonical(now.cwd)
    ensures o.now == now.(files := o.now.files)
    decreases |rs|
  {
    if rs == [] then Output(now, reply, false)
    else
      var step := OutputStep(L, now, variables, rs[0], reply);
      if step.failed then step else Outputs(L, step.now, variables, rs[1..], step.reply)
  }

  // ---- pipelines ----

  /** One command of a pipeline: its reply, and whether a redirection ended the pipeline. */
  function RunCommand(L: Line, c: Context, command: Command, stdin: string): (r: (Context, Reply, bool))
    requires L.world.Sane() && Fit(c) && command.words != []
    ensures Kept(c, r.0)
  {
    var words := Words(L, c, command.words, true);
    match Inputs(L, c, command.redirections, stdin)
    case Refused(message) => (c, Fail(1, message + "\n"), true)
    case Content(input) =>
      var (d, reply) := Invoke(L, c, words[0], words[1..], input);
      var o := Outputs(L, d.now, Variables(d), command.redirections, reply);
      (d.(now := o.now), o.reply, o.failed)
  }

  function Pipeline(L: Line, c: Context, commands: seq<Command>, stdin: string, reply: Reply): (r: (Context, Reply))
    requires L.world.Sane() && Fit(c)
    ensures Kept(c, r.0)
    decreases |commands|
  {
    if commands == [] then (c, reply)
    else if commands[0].words == [] then Pipeline(L, c, commands[1..], stdin, reply)
    else
      var (d, said, ended) := RunCommand(L, c, commands[0], stdin);
      if ended then (d, said) else Pipeline(L, d, commands[1..], said.stdout, said)
  }

  /** A statement's pipeline, and what RunLine does after it. */
  function RunStatement(L: Line, c: Context, commands: seq<Command>, input: string): (r: (Context, Reply))
    requires L.world.Sane() && Fit(c)
    ensures Kept(c, r.0)
  {
    var (d, reply) := Pipeline(L, c, commands, "", QUIET);
    (d.(history := d.history + [input], cwd := d.now.cwd), reply)
  }

  // ---- statement lists ----

  predicate Skipped(s: Statement, last: int) {
    (s.previous == And && last != 0) || (s.previous == Or && last == 0)
  }

  /** RunLine's loop. `said` accumulates both outputs; its exit code is that of the last pipeline. */
  function Statements(L: Line, c: Context, ss: seq<Statement>, input: string, said: Reply): (r: (Context, Reply))
    requires L.world.Sane() && Fit(c)
    ensures Kept(c, r.0)
    decreases |ss|
  {
    if ss == [] then (c, said)
    else if Skipped(ss[0], said.exitCode) then Statements(L, c, ss[1..], input, said)
    else
      var (d, reply) := RunStatement(L, c, ss[0].commands, input);
      var all := Reply(reply.exitCode, said.stdout + reply.stdout, said.stderr + reply.stderr, []);
      if reply.exitCode != 0 then (d, all) else Statements(L, d, ss[1..], input, all)
  }

  // ---- the loops ----

  method ExpandWord(word: string, variables: map<string, string>) returns (b: string)
    ensures b == Expand(word, variables)
  {
    if word == "~" || "~/" <= word { return Expand(word, variables); }
    b := "";
    var i := 0;
    while i < |word|
      invariant i <= |word|
      invariant b + ExpandFrom(word, i, variables) == ExpandFrom(word, 0, variables)
    {
      var (text, next) := ExpandStep(word, i, variables);
      Regroup(b, text, ExpandFrom(word, next, variables));
      b, i := b + text, next;
    }
  }

  lemma Regroup<T>(a: seq<T>, b: seq<T>, c: seq<T>)
    ensures a + (b + c) == a + b + c
  {}

  method CollectWords(L: Line, c: Context, parsed: seq<string>) returns (words: seq<string>)
    ensures words == Words(L, c, parsed, true)
  {
    words := [];
    for i := 0 to |parsed|
      invariant words + Words(L, c, parsed[i..], i == 0) == Words(L, c, parsed, true)
    {
      assert parsed[i..][0] == parsed[i] && parsed[i..][1..] == parsed[i + 1..];
      var expanded := ExpandWord(parsed[i], Variables(c));
      Regroup(words, Word(L, c, parsed[i], i == 0), Words(L, c, parsed[i + 1..], false));
      if i > 0 && HasGlob(expanded) {
        var matches := L.world.glob(c.now, expanded, L.user);
        if |matches| > 0 {
          words := words + matches;
          continue;
        }
      }
      words := words + [expanded];
    }
  }

  method ReadInputs(L: Line, c: Context, rs: seq<Redirection>, stdin: string) returns (r: Input)
    requires Canonical(c.now.cwd)
    ensures r == Inputs(L, c, rs, stdin)
  {
    var input := stdin;
    for i := 0 to |rs|
      invariant Inputs(L, c, rs[i..], input) == Inputs(L, c, rs, stdin)
    {
      assert rs[i..][0] == rs[i] && rs[i..][1..] == rs[i + 1..];
      if rs[i].operator == "<" {
        var target := ExpandWord(rs[i].target, Variables(c));
        match ReadFile(c.now, target, L.user) {
          case Refused(message) => return Refused(message);
          case Content(text) => input := text;
        }
      }
    }
    r := Content(input);
  }

  method WriteOutputs(L: Line, c: Context, rs: seq<Redirection>, result: Reply) returns (o: Output)
    requires Canonical(c.now.cwd)
    ensures o == Outputs(L, c.now, Variables(c), rs, result)
  {
    hide Expand, WriteOut;
    o := Output(c.now, result, false);
    for i := 0 to |rs|
      invariant Canonical(o.now.cwd) && !o.failed
      invariant Outputs(L, o.now, Variables(c), rs[i..], o.reply) == Outputs(L, c.now, Variables(c), rs, result)
    {
      assert rs[i..][0] == rs[i] && rs[i..][1..] == rs[i + 1..];
      o := OutputStep(L, o.now, Variables(c), rs[i], o.reply);
      if o.failed { return; }
    }
  }

  method RunPipeline(L: Line, start: Context, commands: seq<Command>) returns (c: Context, result: Reply)
    requires L.world.Sane() && Fit(start)
    ensures (c, result) == Pipeline(L, start, commands, "", QUIET)
  {
    hide Invoke, Inputs, Outputs, Words, Canonical;
    c, result := start, QUIET;
    var stdin := "";
    for i := 0 to |commands|
      invariant Fit(c)
      invariant Pipeline(L, c, commands[i..], stdin, result) == Pipeline(L, start, commands, "", QUIET)
    {
      assert commands[i..][0] == commands[i] && commands[i..][1..] == commands[i + 1..];
      if |commands[i].words| == 0 { continue; }
      var words := CollectWords(L, c, commands[i].words);
      WordsCollected(L, c, commands[i].words);
      var input := ReadInputs(L, c, commands[i].redirections, stdin);
      if input.Refused? { return c, Fail(1, input.message + "\n"); }
      var (d, reply) := Invoke(L, c, words[0], words[1..], input.text);
      var o := WriteOutputs(L, d, commands[i].redirections, reply);
      c, result := d.(now := o.now), o.reply;
      if o.failed { return; }
      stdin := result.stdout;
    }
  }

  lemma WordsCollected(L: Line, c: Context, words: seq<string>)
    requires words != []
    ensures Words(L, c, words, true) != []
  {}

  // ---- what the list operators come to ----

  /** The pipelines that are not behind `||`. */
  function Runnable(ss: seq<Statement>): seq<seq<Command>> {
    if ss == [] then []
    else (if ss[0].previous == Or then [] else [ss[0].commands]) + Runnable(ss[1..])
  }

  /** One pipeline after the other, up to the first that fails. */
  function UntilFailure(L: Line, c: Context, pipelines: seq<seq<Command>>, input: string, said: Reply): (r: (Context, Reply))
    requires L.world.Sane() && Fit(c)
    decreases |pipelines|
  {
    if pipelines == [] then (c, said)
    else
      var (d, reply) := RunStatement(L, c, pipelines[0], input);
      var all := Reply(reply.exitCode, said.stdout + reply.stdout, said.stderr + reply.stderr, []);
      if reply.exitCode != 0 then (d, all) else UntilFailure(L, d, pipelines[1..], input, all)
  }

  /** A branch behind `||` never runs, and `;` stops at a failure just as `&&` does. */
  lemma {:induction false} ListSemantics(L: Line, c: Context, ss: seq<Statement>, input: string, said: Reply)
    requires L.world.Sane() && Fit(c) && said.exitCode == 0
    ensures Statements(L, c, ss, input, said) == UntilFailure(L, c, Runnable(ss), input, said)
    decreases |ss|
  {
    hide RunStatement, Canonical;
    if ss != [] {
      var rest := Runnable(ss[1..]);
      if ss[0].previous == Or {
        assert [] + rest == rest;
        ListSemantics(L, c, ss[1..], input, said);
      } else {
        assert ([ss[0].commands] + rest)[0] == ss[0].commands && ([ss[0].commands] + rest)[1..] == rest;
        var (d, reply) := RunStatement(L, c, ss[0].commands, input);
        var all := Reply(reply.exitCode, said.stdout + reply.stdout, said.stderr + reply.stderr, []);
        if reply.exitCode == 0 { ListSemantics(L, d, ss[1..], input, all); }
      }
    }
  }

  // ---- expansion ----

  /** A word without dollar sign and leading tilde stands for itself. */
  lemma {:induction false} PlainWordStays(word: string, i: nat, variables: map<string, string>)
    requires i <= |word| && '$' !in word
    ensures ExpandFrom(word, i, variables) == word[i..]
    decreases |word| - i
  {
    if i < |word| {
      assert word[i] in word;
      PlainWordStays(word, i + 1, variables);
    }
  }

  lemma NameEndsAt(name: string, rest: string)
    requires name != "" && (forall c | c in name :: NameChar(c)) && (rest != "" ==> !NameChar(rest[0]))
    ensures NameEnd("$" + name + rest, 1) == 1 + |name|
  {
    hide NameChar, NameEnd;
    var word := "$" + name + rest;
    NameInWord(name, rest);
    EndUnique(word, 1, NameEnd(word, 1), 1 + |name|);
  }

  lemma NameInWord(name: string, rest: string)
    requires forall c | c in name :: NameChar(c)
    ensures var word := "$" + name + rest;
            (forall k | 1 <= k < 1 + |name| :: NameChar(word[k])) && (rest != "" ==> word[1 + |name|] == rest[0])
  {
    hide NameChar;
    var word := "$" + name + rest;
    forall k | 1 <= k < 1 + |name| ensures NameChar(word[k]) { assert word[k] == name[k - 1] && name[k - 1] in name; }
  }

  /** A run of name characters has one end. */
  lemma EndUnique(word: string, i: nat, n: nat, m: nat)
    requires i <= n <= |word| && i <= m <= |word|
    requires (forall k | i <= k < n :: NameChar(word[k])) && (n < |word| ==> !NameChar(word[n]))
    requires (forall k | i <= k < m :: NameChar(word[k])) && (m < |word| ==> !NameChar(word[m]))
    ensures n == m
  {
    hide NameChar;
  }

  lemma NamePlace(name: string, rest: string)
    requires name != "" && forall c | c in name :: NameChar(c)
    ensures var word := "$" + name + rest;
            word[0] == '$' && |word| > 1 && word[1] != OPEN_BRACE && word[1..1 + |name|] == name && word != "~" && !("~/" <= word)
  {
    assert ("$" + name + rest)[1] == name[0] && name[0] in name;
    assert ("$" + name + rest)[0] == '$' && "~"[0] == '~' && "~/"[0] == '~';
  }

  /** `$NAME` before anything that cannot continue the name is the variable's value. */
  lemma NameIsReplaced(name: string, rest: string, variables: map<string, string>)
    requires name != "" && (forall c | c in name :: NameChar(c)) && (rest != "" ==> !NameChar(rest[0]))
    ensures Expand("$" + name + rest, variables) == Value(variables, name) + ExpandFrom("$" + name + rest, 1 + |name|, variables)
  {
    hide NameEnd, NameChar, OPEN_BRACE;
    NameEndsAt(name, rest);
    NamePlace(name, rest);
  }

  // ---- after a reset ----

  /** The machine's environment is the snapshot's, and the line writes to a map of its own. */
  ghost predicate EnvReset(c: Context) { c.orphan.Detached? && c.now.env == c.initial.env }

  lemma DirectAfterReset(L: Line, c: Context, user: string, name: string, args: seq<string>, stdin: string)
    requires L.world.Sane() && Fit(c) && EnvReset(c)
    ensures EnvReset(Direct(L, c, user, name, args, stdin).0)
  {
    hide Canonical, Join;
  }

  lemma InvokeAfterReset(L: Line, c: Context, name: string, args: seq<string>, stdin: string)
    requires L.world.Sane() && Fit(c) && EnvReset(c)
    ensures EnvReset(Invoke(L, c, name, args, stdin).0)
  {
    hide Canonical, Direct;
    DirectAfterReset(L, c, L.user, name, args, stdin);
    if args != [] { DirectAfterReset(L, c, "root", args[0], args[1..], stdin); }
  }

  lemma CommandAfterReset(L: Line, c: Context, command: Command, stdin: string)
    requires L.world.Sane() && Fit(c) && command.words != [] && EnvReset(c)
    ensures EnvReset(RunCommand(L, c, command, stdin).0)
  {
    hide Canonical, Inputs, Words, Outputs, Invoke;
    var words := Words(L, c, command.words, true);
    match Inputs(L, c, command.redirections, stdin)
    case Refused(_) =>
    case Content(input) => InvokeAfterReset(L, c, words[0], words[1..], input);
  }

  lemma {:induction false} PipelineAfterReset(L: Line, c: Context, commands: seq<Command>, stdin: string, reply: Reply)
    requires L.world.Sane() && Fit(c) && EnvReset(c)
    ensures EnvReset(Pipeline(L, c, commands, stdin, reply).0)
    decreases |commands|
  {
    hide Canonical, RunCommand, EnvReset;
    if commands != [] {
      if commands[0].words == [] {
        PipelineAfterReset(L, c, commands[1..], stdin, reply);
      } else {
        var (d, said, ended) := RunCommand(L, c, commands[0], stdin);
        CommandAfterReset(L, c, commands[0], stdin);
        if !ended { PipelineAfterReset(L, d, commands[1..], said.stdout, said); }
      }
    }
  }

  /** What a line exports after its `lab reset` never reaches the machine: env.Variables
      is still the map that reset has replaced. */
  lemma {:induction false} ExportsAfterResetAreLost(L: Line, c: Context, ss: seq<Statement>, input: string, said: Reply)
    requires L.world.Sane() && Fit(c) && EnvReset(c)
    ensures Statements(L, c, ss, input, said).0.now.env == c.initial.env
    decreases |ss|
  {
    hide Canonical, Pipeline;
    if ss != [] {
      if Skipped(ss[0], said.exitCode) {
        ExportsAfterResetAreLost(L, c, ss[1..], input, said);
      } else {
        PipelineAfterReset(L, c, ss[0].commands, "", QUIET);
        var (d, reply) := RunStatement(L, c, ss[0].commands, input);
        var all := Reply(reply.exitCode, said.stdout + reply.stdout, said.stderr + reply.stderr, []);
        if reply.exitCode == 0 { ExportsAfterResetAreLost(L, d, ss[1..], input, all); }
      }
    }
  }
}
