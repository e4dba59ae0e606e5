/** internal/shell/parser.go: the lexer, the operator recombiner and the
    statement builder, each as its loop and as the function the loop computes. */
module Shell {

  datatype Connector = None | Sequence | And | Or

  datatype Redirection = Redirection(fd: int, operator: string, target: string)
  datatype Command = Command(words: seq<string>, redirections: seq<Redirection>)
  datatype Statement = Statement(previous: Connector, commands: seq<Command>)

  datatype SyntaxError = TrailingEscape | UnterminatedQuote | EmptyCommand | EmptyPipeline | MissingTarget

  datatype Result<T> = Ok(value: T) | Err(error: SyntaxError)

  // ---- lexing ----

  datatype Quote = Unquoted | Single | Double

  datatype LexState = LexState(out: seq<string>, word: string, started: bool, quote: Quote, escaped: bool) {
    function Flush(): LexState {
      if started then LexState(out + [word], "", false, quote, escaped) else this
    }

    function Take(r: char): LexState { this.(word := word + [r], started := true) }

    function Step(r: char): LexState {
      if escaped then Take(r).(escaped := false)
      else if quote.Single? then
        if r == '\'' then this.(quote := Unquoted) else Take(r)
      else if quote.Double? then
        if r == '"' then this.(quote := Unquoted)
        else if r == '\\' then this.(escaped := true)
        else Take(r)
      else if r == '\\' then this.(escaped := true, started := true)
      else if r == '\'' then this.(quote := Single, started := true)
      else if r == '"' then this.(quote := Double, started := true)
      else if r in " \t\r\n" then Flush()
      else if r in "|;><&" then var f := Flush(); f.(out := f.out + [[r]])
      else Take(r)
    }

    function Run(input: string): LexState
      decreases |input|
    {
      if input == "" then this else Step(input[0]).Run(input[1..])
    }
  }

  const START := LexState([], "", false, Unquoted, false)

  function LexSpec(input: string): Result<seq<string>> {
    var s := START.Run(input);
    if s.escaped then Err(TrailingEscape)
    else if s.quote != Unquoted then Err(UnterminatedQuote)
    else Ok(Normalized(s.Flush().out))
  }

  method Lex(input: string) returns (r: Result<seq<string>>)
    ensures r == LexSpec(input)
  {
    var s := START;
    for i := 0 to |input|
      invariant s.Run(input[i..]) == START.Run(input)
    {
      assert input[i..][0] == input[i] && input[i..][1..] == input[i + 1..];
      s := s.Step(input[i]);
    }
    assert input[|input|..] == "";
    if s.escaped { return Err(TrailingEscape); }
    if s.quote != Unquoted { return Err(UnterminatedQuote); }
    var out := NormalizeOperators(s.Flush().out);
    return Ok(out);
  }

  // ---- recombining operators ----

  /** The operator that starts the list, and how many tokens it takes. */
  function Combined(ts: seq<string>): (r: (string, nat))
    requires ts != []
    ensures 1 <= r.1 <= |ts|
  {
    if ts[0] == "|" && |ts| > 1 && ts[1] == "|" then ("||", 2)
    else if ts[0] == "&" && |ts| > 1 && ts[1] == "&" then ("&&", 2)
    else if ts[0] == "2" && |ts| > 3 && ts[1] == ">" && ts[2] == "&" && ts[3] == "1" then ("2>&1", 4)
    else if ts[0] == "2" && |ts| > 1 && ts[1] == ">" then ("2>", 2)
    else if ts[0] == ">" && |ts| > 1 && ts[1] == ">" then (">>", 2)
    else (ts[0], 1)
  }

  function Normalized(ts: seq<string>): seq<string>
    decreases |ts|
  {
    if ts == [] then [] else [Combined(ts).0] + Normalized(ts[Combined(ts).1..])
  }

  method NormalizeOperators(tokens: seq<string>) returns (out: seq<string>)
    ensures out == Normalized(tokens)
  {
    out := [];
    var i := 0;
    while i < |tokens|
      invariant i <= |tokens|
      invariant out + Normalized(tokens[i..]) == Normalized(tokens)
    {
      var (token, n) := Combined(tokens[i..]);
      assert tokens[i..][n..] == tokens[i + n..];
      out := out + [token];
      i := i + n;
    }
    assert tokens[i..] == [];
  }

  // ---- building statements ----

  predicate IsRedirection(t: string) { t == ">" || t == ">>" || t == "<" || t == "2>" || t == "2>&1" }

  predicate IsConnector(t: string) { t == ";" || t == "&&" || t == "||" }

  function ConnectorOf(t: string): Connector
    requires IsConnector(t)
  {
    if t == ";" then Sequence else if t == "&&" then And else Or
  }

  function Descriptor(operator: string): int { if "2" <= operator then 2 else 1 }

  const NO_COMMAND := Command([], [])

  datatype ParseState = ParseState(statements: seq<Statement>, previous: Connector,
                                   pipeline: seq<Command>, command: Command) {
    function FlushCommand(): Result<ParseState> {
      if command.words == [] then Err(EmptyCommand)
      else Ok(this.(pipeline := pipeline + [command], command := NO_COMMAND))
    }

    function FlushPipeline(): Result<ParseState> {
      var s := if command.words != [] then this.(pipeline := pipeline + [command], command := NO_COMMAND) else this;
      if s.pipeline == [] then Err(EmptyPipeline)
      else Ok(s.(statements := s.statements + [Statement(previous, s.pipeline)], pipeline := [], previous := Sequence))
    }

    /** One iteration of Parse's loop: the new state and how many tokens it took. */
    function Step(ts: seq<string>): (r: Result<(ParseState, nat)>)
      requires ts != []
      ensures r.Ok? ==> 1 <= r.value.1 <= |ts|
    {
      var t := ts[0];
      if t == "|" then
        match FlushCommand()
        case Ok(s) => Ok((s, 1))
        case Err(e) => Err(e)
      else if IsConnector(t) then
        match FlushPipeline()
        case Ok(s) => Ok((s.(previous := ConnectorOf(t)), 1))
        case Err(e) => Err(e)
      else if IsRedirection(t) then
        if |ts| < 2 then Err(MissingTarget)
        else
          var r := Redirection(Descriptor(t), t, ts[1]);
          Ok((this.(command := command.(redirections := command.redirections + [r])), 2))
      else Ok((this.(command := command.(words := command.words + [t])), 1))
    }

    function Run(ts: seq<string>): Result<ParseState>
      decreases |ts|
    {
      if ts == [] then Ok(this)
      else
        match Step(ts)
        case Err(e) => Err(e)
        case Ok((s, n)) => s.Run(ts[n..])
    }

    function Finish(): Result<seq<Statement>> {
      if command.words == [] && pipeline == [] then Ok(First(statements))
      else
        match FlushPipeline()
        case Err(e) => Err(e)
        case Ok(s) => Ok(First(s.statements))
    }
  }

  /** `statements[0].Previous = OpNone`, when there is one. */
  function First(statements: seq<Statement>): seq<Statement> {
    if statements == [] then [] else [statements[0].(previous := None)] + statements[1..]
  }

  const BEGIN := ParseState([], None, [], NO_COMMAND)

  function ParseTokens(ts: seq<string>): Result<seq<Statement>> {
    match BEGIN.Run(ts)
    case Err(e) => Err(e)
    case Ok(s) => s.Finish()
  }

  function ParseSpec(input: string): Result<seq<Statement>> {
    match LexSpec(input)
    case Err(e) => Err(e)
    case Ok(ts) => ParseTokens(ts)
  }

  method Parse(input: string) returns (r: Result<seq<Statement>>)
    ensures r == ParseSpec(input)
  {
    var lexed := Lex(input);
    if lexed.Err? { return Err(lexed.error); }
    var tokens := lexed.value;
    var s := BEGIN;
    var i := 0;
    while i < |tokens|
      invariant i <= |tokens|
      invariant s.Run(tokens[i..]) == BEGIN.Run(tokens)
    {
      var step := s.Step(tokens[i..]);
      if step.Err? { return Err(step.error); }
      var (next, n) := step.value;
      assert tokens[i..][n..] == tokens[i + n..];
      s := next;
      i := i + n;
    }
    assert tokens[i..] == [];
    return s.Finish();
  }

  // ---- what a successful parse looks like ----

  /** A token that the parser takes for more than a word. */
  predicate KnownOp(t: string) { t == "|" || IsConnector(t) || IsRedirection(t) }

  ghost predicate ShapedParts(c: Command) {
    && (forall w | w in c.words :: !KnownOp(w))
    && (forall r | r in c.redirections :: IsRedirection(r.operator) && r.fd == Descriptor(r.operator))
  }

  ghost predicate ShapedCommand(c: Command) { c.words != [] && ShapedParts(c) }

  ghost predicate ShapedPipeline(cs: seq<Command>) { forall c | c in cs :: ShapedCommand(c) }

  ghost predicate Shaped(statements: seq<Statement>) {
    forall i | 0 <= i < |statements| ::
      && (statements[i].previous == None <==> i == 0)
      && statements[i].commands != [] && ShapedPipeline(statements[i].commands)
  }

  /** The same while the first connector has not been reset. */
  ghost predicate Building(s: ParseState) {
    && (forall i | 0 <= i < |s.statements| ::
          && s.statements[i].commands != [] && ShapedPipeline(s.statements[i].commands)
          && (i > 0 ==> s.statements[i].previous != None))
    && (s.statements != [] ==> s.previous != None)
    && ShapedPipeline(s.pipeline) && ShapedParts(s.command)
  }

  lemma StepBuilding(s: ParseState, ts: seq<string>)
    requires Building(s) && ts != []
    ensures s.Step(ts).Ok? ==> Building(s.Step(ts).value.0)
  {}

  lemma {:induction false} RunBuilding(s: ParseState, ts: seq<string>)
    requires Building(s)
    ensures s.Run(ts).Ok? ==> Building(s.Run(ts).value)
    decreases |ts|
  {
    if ts != [] && s.Step(ts).Ok? {
      StepBuilding(s, ts);
      RunBuilding(s.Step(ts).value.0, ts[s.Step(ts).value.1..]);
    }
  }

  /** Every accepted line has non-empty pipelines of non-empty commands, no operators
      among their words, file descriptors that match their operators, and no connector on
      the first statement only. */
  lemma ParseShape(input: string)
    requires ParseSpec(input).Ok?
    ensures Shaped(ParseSpec(input).value)
  {
    var ts := LexSpec(input).value;
    RunBuilding(BEGIN, ts);
    var s := BEGIN.Run(ts).value;
    if s.command.words != [] || s.pipeline != [] {
      assert Building(s.FlushPipeline().value);
    }
  }

  // ---- recombination is idempotent ----

  /** No two neighbours of the output recombine. */
  ghost predicate Stable(ts: seq<string>)
    decreases |ts|
  {
    ts == [] || (Combined(ts) == (ts[0], 1) && Stable(ts[1..]))
  }

  lemma {:induction false} NormalizedStable(ts: seq<string>)
    ensures Stable(Normalized(ts))
    decreases |ts|
  {
    if ts != [] {
      var (t, n) := Combined(ts);
      var rest := ts[n..];
      NormalizedStable(rest);
      var out := Normalized(ts);
      assert out == [t] + Normalized(rest) && out[1..] == Normalized(rest);
      if rest != [] {
        assert out[1] == Combined(rest).0;
        assert rest[0] == ts[n];
      }
    }
  }

  lemma {:induction false} StableFixed(ts: seq<string>)
    requires Stable(ts)
    ensures Normalized(ts) == ts
    decreases |ts|
  {
    if ts != [] {
      StableFixed(ts[1..]);
      assert ts == [ts[0]] + ts[1..];
    }
  }

  /** normalizeOperators applied to its own output changes nothing. */
  lemma NormalizeIdempotent(ts: seq<string>)
    ensures Normalized(Normalized(ts)) == Normalized(ts)
  {
    NormalizedStable(ts);
    StableFixed(Normalized(ts));
  }
}
