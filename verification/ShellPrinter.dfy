/** A printer for statement lists, and the proof that parsing undoes it. */
module ShellPrinter {
  import opened Shell

  // ---- printing ----

  /** Every character behind a backslash; quotes for the empty word. */
  function Backslashed(w: string): string {
    if w == "" then "" else "\\" + [w[0]] + Backslashed(w[1..])
  }

  function Escape(w: string): string { if w == "" then "''" else Backslashed(w) }

  datatype Item = Op(text: string) | Word(text: string)

  function ItemText(i: Item): string {
    match i
    case Op(t) => t + " "
    case Word(w) => Escape(w) + " "
  }

  function TextOf(items: seq<Item>): string {
    if items == [] then "" else ItemText(items[0]) + TextOf(items[1..])
  }

  function Words(ws: seq<string>): seq<Item> {
    if ws == [] then [] else [Word(ws[0])] + Words(ws[1..])
  }

  function Redirections(rs: seq<Redirection>): seq<Item> {
    if rs == [] then [] else [Op(rs[0].operator), Word(rs[0].target)] + Redirections(rs[1..])
  }

  function CommandItems(c: Command): seq<Item> { Words(c.words) + Redirections(c.redirections) }

  function PipelineItems(cs: seq<Command>): seq<Item> {
    if cs == [] then []
    else if |cs| == 1 then CommandItems(cs[0])
    else CommandItems(cs[0]) + [Op("|")] + PipelineItems(cs[1..])
  }

  function Symbol(c: Connector): string {
    match c case None => "" case Sequence => ";" case And => "&&" case Or => "||"
  }

  function StatementItems(ss: seq<Statement>): seq<Item> {
    if ss == [] then []
    else if |ss| == 1 then PipelineItems(ss[0].commands)
    else PipelineItems(ss[0].commands) + [Op(Symbol(ss[1].previous))] + StatementItems(ss[1..])
  }

  function Print(ss: seq<Statement>): string { TextOf(StatementItems(ss)) }

  // ---- lexing the printed text ----

  /** What the lexer emits for an item, before recombination. */
  function RawTokens(i: Item): seq<string> {
    match i
    case Word(w) => [w]
    case Op(t) =>
      if t == "&&" then ["&", "&"]
      else if t == "||" then ["|", "|"]
      else if t == ">>" then [">", ">"]
      else if t == "2>" then ["2", ">"]
      else if t == "2>&1" then ["2", ">", "&", "1"]
      else [t]
  }

  function AllRaw(items: seq<Item>): seq<string> {
    if items == [] then [] else RawTokens(items[0]) + AllRaw(items[1..])
  }

  function AllFinal(items: seq<Item>): seq<string> {
    if items == [] then [] else [items[0].text] + AllFinal(items[1..])
  }

  /** Between items nothing is pending. */
  function Clean(out: seq<string>): LexState { LexState(out, "", false, Unquoted, false) }

  lemma {:induction false} RunConcat(s: LexState, a: string, b: string)
    ensures s.Run(a + b) == s.Run(a).Run(b)
    decreases |a|
  {
    if a == "" {
      assert a + b == b;
    } else {
      assert (a + b)[0] == a[0] && (a + b)[1..] == a[1..] + b;
      RunConcat(s.Step(a[0]), a[1..], b);
    }
  }

  lemma {:induction false} RunBackslashed(s: LexState, w: string)
    requires s.quote == Unquoted && !s.escaped && (w == "" ==> s.started)
    ensures s.Run(Backslashed(w)) == s.(word := s.word + w, started := true)
    decreases |w|
  {
    if w == "" {
      assert s.word + w == s.word;
    } else {
      var t := Backslashed(w);
      assert t[0] == '\\' && t[1] == w[0] && t[1..][1..] == Backslashed(w[1..]);
      var next := s.(word := s.word + [w[0]], started := true);
      assert s.Step('\\').Step(w[0]) == next;
      assert s.Run(t) == s.Step('\\').Run(t[1..]) == next.Run(Backslashed(w[1..]));
      RunBackslashed(next, w[1..]);
      assert s.word + [w[0]] + w[1..] == s.word + w;
    }
  }

  lemma RunOne(s: LexState, c: char)
    ensures s.Run([c]) == s.Step(c)
  {
    assert [c][1..] == "";
  }

  lemma RunWord(out: seq<string>, w: string)
    ensures Clean(out).Run(Escape(w) + " ") == Clean(out + [w])
  {
    var s := Clean(out);
    RunConcat(s, Escape(w), " ");
    if w == "" {
      RunConcat(s, "'", "'");
      RunOne(s, '\'');
      RunOne(s.Step('\''), '\'');
      assert "'" + "'" == "''";
    } else {
      RunBackslashed(s, w);
      assert "" + w == w;
    }
    RunOne(s.Run(Escape(w)), ' ');
  }

  lemma RunPair(s: LexState, a: char, b: char)
    ensures s.Run([a, b]) == s.Step(a).Step(b)
  {
    assert [a, b] == [a] + [b];
    RunConcat(s, [a], [b]);
    RunOne(s, a);
    RunOne(s.Step(a), b);
  }

  lemma OneOp(out: seq<string>, c: char)
    requires c in "|;><"
    ensures Clean(out).Run([c]) == Clean(out + [[c]])
  {
    RunOne(Clean(out), c);
  }

  lemma DoubleOp(out: seq<string>, c: char)
    requires c in "|&>"
    ensures Clean(out).Run([c, c]) == Clean(out + [[c], [c]])
  {
    RunPair(Clean(out), c, c);
    assert out + [[c]] + [[c]] == out + [[c], [c]];
  }

  lemma ErrorOp(out: seq<string>)
    ensures Clean(out).Run("2>") == Clean(out + ["2", ">"])
  {
    RunPair(Clean(out), '2', '>');
    assert "" + ['2'] == "2";
    assert out + ["2"] + [">"] == out + ["2", ">"];
  }

  lemma OpKinds(t: string)
    requires KnownOp(t)
    ensures || (|t| == 1 && t[0] in "|;><" && t == [t[0]] && RawTokens(Op(t)) == [[t[0]]])
            || (|t| == 2 && t[0] in "|&>" && t == [t[0], t[0]] && RawTokens(Op(t)) == [[t[0]], [t[0]]])
            || t == "2>" || t == "2>&1"
  {
    if t == "|" || t == ";" || t == ">" || t == "<" { assert t == [t[0]]; }
  }

  lemma RunOp(out: seq<string>, t: string)
    requires KnownOp(t)
    ensures Clean(out).Run(t + " ") == Clean(out + RawTokens(Op(t)))
  {
    var s := Clean(out);
    RunConcat(s, t, " ");
    RunOne(s.Run(t), ' ');
    OpKinds(t);
    if t == "2>&1" {
      RunMerge(out);
    } else if t == "2>" {
      ErrorOp(out);
    } else if |t| == 1 {
      OneOp(out, t[0]);
    } else {
      DoubleOp(out, t[0]);
    }
  }

  lemma AndOne(out: seq<string>)
    ensures Clean(out).Run("&1").Step(' ') == Clean(out + ["&", "1"])
  {
    RunPair(Clean(out), '&', '1');
    assert "" + ['1'] == "1";
    assert out + ["&"] + ["1"] == out + ["&", "1"];
  }

  lemma RunMerge(out: seq<string>)
    ensures Clean(out).Run("2>&1").Step(' ') == Clean(out + RawTokens(Op("2>&1")))
  {
    hide LexState.Step, LexState.Run;
    var two := out + ["2", ">"];
    assert "2>&1" == "2>" + "&1";
    RunConcat(Clean(out), "2>", "&1");
    ErrorOp(out);
    AndOne(two);
    assert two + ["&", "1"] == out + ["2", ">", "&", "1"];
  }

  lemma RunItem(out: seq<string>, i: Item)
    requires i.Op? ==> KnownOp(i.text)
    ensures Clean(out).Run(ItemText(i)) == Clean(out + RawTokens(i))
  {
    if i.Word? { RunWord(out, i.text); } else { RunOp(out, i.text); }
  }

  lemma RawCons(out: seq<string>, items: seq<Item>)
    requires items != []
    ensures out + RawTokens(items[0]) + AllRaw(items[1..]) == out + AllRaw(items)
  {
    assert out + RawTokens(items[0]) + AllRaw(items[1..]) == out + (RawTokens(items[0]) + AllRaw(items[1..]));
  }

  lemma {:induction false} RunItems(out: seq<string>, items: seq<Item>)
    requires forall i | i in items && i.Op? :: KnownOp(i.text)
    ensures Clean(out).Run(TextOf(items)) == Clean(out + AllRaw(items))
    decreases |items|
  {
    if items == [] {
      assert out + [] == out;
    } else {
      var i := items[0];
      assert i in items;
      RunConcat(Clean(out), ItemText(i), TextOf(items[1..]));
      RunItem(out, i);
      RunItems(out + RawTokens(i), items[1..]);
      RawCons(out, items);
    }
  }

  // ---- recombining them ----

  /** Words are no operators, and behind an operator there is one; or, behind a redirection,
      its target, with which the words end. */
  predicate Laid(items: seq<Item>)
    decreases |items|
  {
    items == [] ||
    match items[0]
    case Word(w) => !KnownOp(w) && Laid(items[1..])
    case Op(t) =>
      && KnownOp(t) && |items| > 1 && items[1].Word?
      && if IsRedirection(t) then (|items| > 2 ==> items[2].Op?) && Laid(items[2..]) else Laid(items[1..])
  }

  lemma {:induction false} LaidAppend(a: seq<Item>, b: seq<Item>)
    requires Laid(a) && Laid(b) && (b != [] ==> b[0].Op?)
    ensures Laid(a + b)
    decreases |a|
  {
    if a == [] {
      assert a + b == b;
    } else if a[0].Op? && IsRedirection(a[0].text) {
      LaidAppend(a[2..], b);
      assert (a + b)[2..] == a[2..] + b;
    } else {
      LaidAppend(a[1..], b);
      assert (a + b)[1..] == a[1..] + b;
    }
  }

  lemma LaidOp(a: seq<Item>, t: string, b: seq<Item>)
    requires Laid(a) && Laid(b) && KnownOp(t) && !IsRedirection(t) && b != [] && b[0].Word?
    ensures Laid(a + [Op(t)] + b)
  {
    assert ([Op(t)] + b)[1..] == b;
    LaidAppend(a, [Op(t)] + b);
    assert a + [Op(t)] + b == a + ([Op(t)] + b);
  }

  lemma {:induction false} WordsLaid(ws: seq<string>)
    requires forall w | w in ws :: !KnownOp(w)
    ensures Laid(Words(ws)) && (ws != [] ==> Words(ws) != [] && Words(ws)[0].Word?)
  {
    if ws != [] {
      assert ws[0] in ws;
      WordsLaid(ws[1..]);
      assert ([Word(ws[0])] + Words(ws[1..]))[1..] == Words(ws[1..]);
    }
  }

  lemma {:induction false} RedirectionsLaid(rs: seq<Redirection>)
    requires forall r | r in rs :: IsRedirection(r.operator)
    ensures Laid(Redirections(rs)) && (rs != [] ==> Redirections(rs) != [] && Redirections(rs)[0].Op?)
  {
    if rs != [] {
      assert rs[0] in rs;
      RedirectionsLaid(rs[1..]);
      assert Redirections(rs)[2..] == Redirections(rs[1..]);
    }
  }

  lemma CommandLaid(c: Command)
    requires ShapedCommand(c)
    ensures Laid(CommandItems(c)) && CommandItems(c) != [] && CommandItems(c)[0].Word?
  {
    WordsLaid(c.words);
    RedirectionsLaid(c.redirections);
    LaidAppend(Words(c.words), Redirections(c.redirections));
  }

  lemma {:induction false} PipelineLaid(cs: seq<Command>)
    requires cs != [] && ShapedPipeline(cs)
    ensures Laid(PipelineItems(cs)) && PipelineItems(cs) != [] && PipelineItems(cs)[0].Word?
    decreases |cs|
  {
    assert cs[0] in cs;
    CommandLaid(cs[0]);
    if |cs| > 1 {
      PipelineLaid(cs[1..]);
      LaidOp(CommandItems(cs[0]), "|", PipelineItems(cs[1..]));
    }
  }

  /** Pipelines of which all but the first have a connector. */
  ghost predicate Connected(ss: seq<Statement>) {
    forall i | 0 <= i < |ss| :: ss[i].commands != [] && ShapedPipeline(ss[i].commands) && (i > 0 ==> ss[i].previous != None)
  }

  lemma {:induction false} StatementsLaid(ss: seq<Statement>)
    requires Connected(ss)
    ensures Laid(StatementItems(ss)) && (ss != [] ==> StatementItems(ss) != [] && StatementItems(ss)[0].Word?)
    decreases |ss|
  {
    if ss != [] {
      PipelineLaid(ss[0].commands);
      if |ss| > 1 {
        StatementsLaid(ss[1..]);
        LaidOp(PipelineItems(ss[0].commands), Symbol(ss[1].previous), StatementItems(ss[1..]));
      }
    }
  }

  /** The two tokens recombine, or begin an operator that does. */
  predicate Joins(a: string, b: string) {
    (a == "2" && b == ">") || (a == "&" && b == "&") || (a == "|" && b == "|") || (a == ">" && b == ">")
  }

  /** The item's text recombines with what the next one begins with. */
  predicate JoinsAt(items: seq<Item>, i: nat) { i + 1 < |items| && Joins(items[i].text, RawTokens(items[i + 1])[0]) }

  predicate Apart(items: seq<Item>) { forall i: nat | i < |items| :: !JoinsAt(items, i) }

  lemma ApartTail(items: seq<Item>, n: nat)
    requires n <= |items| && forall i: nat | i < n :: !JoinsAt(items, i)
    ensures Apart(items) <==> Apart(items[n..])
  {
    assert forall i: nat :: JoinsAt(items[n..], i) <==> JoinsAt(items, n + i);
    if Apart(items[n..]) {
      forall i: nat | i < |items| ensures !JoinsAt(items, i) {
        if i >= n { assert !JoinsAt(items[n..], i - n); }
      }
    }
  }

  lemma RawAhead(items: seq<Item>)
    ensures items != [] ==> AllRaw(items) != [] && AllRaw(items)[0] == RawTokens(items[0])[0]
  {}

  lemma WordCombines(w: string, rest: seq<string>)
    ensures Combined([w] + rest) == (w, 1) <==> !(rest != [] && Joins(w, rest[0]))
    ensures Combined([w] + rest) == (w, 1) <==> Combined([w] + rest).0 == w
  {
    assert rest != [] ==> ([w] + rest)[1] == rest[0];
  }

  /** An operator of one token is a word to the recombination; a longer one is found, unless it is
      `2>` before `&` and `1`. */
  lemma OpCombines(t: string, rest: seq<string>)
    requires KnownOp(t) && !(t == "2>" && |rest| > 1 && rest[0] == "&" && rest[1] == "1")
    ensures var raw := RawTokens(Op(t));
            Combined(raw + rest) == (t, |raw|) <==> !(rest != [] && Joins(t, rest[0]))
  {
    var ts := RawTokens(Op(t)) + rest;
    if |RawTokens(Op(t))| == 1 {
      WordCombines(t, rest);
    } else {
      assert forall k | 0 <= k < |RawTokens(Op(t))| :: ts[k] == RawTokens(Op(t))[k];
      assert t == "2>" ==> (forall k | 0 <= k < |rest| :: ts[2 + k] == rest[k]);
    }
  }

  /** No target of `2>` is followed by `1`. */
  lemma NoMerge(items: seq<Item>)
    requires Laid(items) && items != [] && items[0] == Op("2>")
    ensures var rest := AllRaw(items[1..]); !(|rest| > 1 && rest[0] == "&" && rest[1] == "1")
  {
    var rest := items[1..];
    assert AllRaw(rest) == [rest[0].text] + AllRaw(rest[1..]);
    if |rest| > 1 {
      assert rest[1] == items[2] && rest[1].Op?;
      RawAhead(rest[1..]);
      OpHead(items[2..]);
    }
  }

  lemma OpHead(items: seq<Item>)
    requires Laid(items) && items != [] && items[0].Op?
    ensures AllRaw(items) != [] && AllRaw(items)[0] != "1"
  {
    OpKinds(items[0].text);
  }

  /** An item recombines to its own text exactly if it does not join the next. */
  lemma ItemCombines(items: seq<Item>)
    requires Laid(items) && items != []
    ensures var raw := RawTokens(items[0]);
            Combined(AllRaw(items)) == (items[0].text, |raw|) <==> !JoinsAt(items, 0)
  {
    hide Combined, Laid, KnownOp, Joins, AllRaw;
    var i, rest := items[0], items[1..];
    AllRawFirst(items);
    RawAhead(rest);
    if i.Word? {
      WordCombines(i.text, AllRaw(rest));
    } else {
      LaidKnown(items);
      if i.text == "2>" { NoMerge(items); }
      OpCombines(i.text, AllRaw(rest));
    }
    RestEmpty(rest);
  }

  lemma AllRawFirst(items: seq<Item>)
    requires items != []
    ensures AllRaw(items) == RawTokens(items[0]) + AllRaw(items[1..])
  {}

  lemma RestEmpty(items: seq<Item>)
    ensures AllRaw(items) == [] <==> items == []
  {}

  lemma LaidKnown(items: seq<Item>)
    requires Laid(items) && items != [] && items[0].Op?
    ensures KnownOp(items[0].text)
  {}

  lemma NormalizedFirst(items: seq<Item>)
    requires items != [] && AllRaw(items) != [] && Combined(AllRaw(items)) == (items[0].text, |RawTokens(items[0])|)
    ensures Normalized(AllRaw(items)) == [items[0].text] + Normalized(AllRaw(items[1..]))
  {
    hide Combined;
    assert AllRaw(items)[|RawTokens(items[0])|..] == AllRaw(items[1..]);
  }

  lemma FinalFirst(items: seq<Item>)
    requires items != []
    ensures AllFinal(items) == [items[0].text] + AllFinal(items[1..])
  {}

  /** A target recombines to its own text exactly if it does not join what is next. */
  lemma TargetCombines(items: seq<Item>)
    requires Laid(items) && items != [] && items[0].Op? && IsRedirection(items[0].text)
    ensures items[1..] != [] && AllRaw(items[1..]) != []
    ensures Combined(AllRaw(items[1..])) == (items[1].text, 1) <==> !JoinsAt(items, 1)
    ensures Combined(AllRaw(items[1..])) == (items[1].text, 1) <==> Combined(AllRaw(items[1..])).0 == items[1].text
  {
    hide Combined, Joins;
    var rest := items[1..];
    assert rest[1..] == items[2..];
    AllRawFirst(rest);
    RawAhead(rest[1..]);
    RestEmpty(rest[1..]);
    WordCombines(rest[0].text, AllRaw(rest[1..]));
  }

  /** Items that do not join are read back as they are. */
  lemma {:induction false} NormalizeItems(items: seq<Item>)
    requires Laid(items) && Apart(items)
    ensures Normalized(AllRaw(items)) == AllFinal(items)
    decreases |items|
  {
    hide Combined, Joins, KnownOp, Normalized;
    RestEmpty(items);
    if items != [] {
      assert !JoinsAt(items, 0);
      ItemCombines(items);
      NormalizedFirst(items);
      FinalFirst(items);
      if items[0].Op? && IsRedirection(items[0].text) {
        assert !JoinsAt(items, 1);
        TargetCombines(items);
        NormalizedFirst(items[1..]);
        FinalFirst(items[1..]);
        assert items[1..][1..] == items[2..];
        ApartTail(items, 2);
        NormalizeItems(items[2..]);
      } else {
        ApartTail(items, 1);
        NormalizeItems(items[1..]);
      }
    } else {
      NoneNormalized();
    }
  }

  lemma NoneNormalized()
    ensures Normalized([]) == []
  {}

  // ---- building the statements again ----

  lemma {:induction false} FinalConcat(a: seq<Item>, b: seq<Item>)
    ensures AllFinal(a + b) == AllFinal(a) + AllFinal(b)
    decreases |a|
  {
    if a == [] {
      assert a + b == b;
    } else {
      assert (a + b)[1..] == a[1..] + b;
      FinalConcat(a[1..], b);
    }
  }

  lemma RunWordToken(s: ParseState, w: string, tail: seq<string>)
    requires !KnownOp(w)
    ensures s.Run([w] + tail) == WithWords(s, [w]).Run(tail)
  {
    assert ([w] + tail)[1..] == tail;
  }

  lemma RunRedirection(s: ParseState, r: Redirection, tail: seq<string>)
    requires IsRedirection(r.operator) && r.fd == Descriptor(r.operator)
    ensures s.Run([r.operator, r.target] + tail)
         == WithRedirections(s, [r]).Run(tail)
  {
    assert ([r.operator, r.target] + tail)[2..] == tail;
  }

  lemma RunPipe(s: ParseState, tail: seq<string>)
    requires s.command.words != []
    ensures s.Run(["|"] + tail) == s.(pipeline := s.pipeline + [s.command], command := NO_COMMAND).Run(tail)
  {
    assert (["|"] + tail)[1..] == tail;
  }

  lemma RunConnector(s: ParseState, c: Connector, tail: seq<string>)
    requires c != None && s.FlushPipeline().Ok?
    ensures s.Run([Symbol(c)] + tail) == s.FlushPipeline().value.(previous := c).Run(tail)
  {
    assert ([Symbol(c)] + tail)[1..] == tail;
  }

  function WithWords(s: ParseState, ws: seq<string>): ParseState {
    s.(command := s.command.(words := s.command.words + ws))
  }

  lemma WithWordsConcat(s: ParseState, a: seq<string>, b: seq<string>)
    ensures WithWords(WithWords(s, a), b) == WithWords(s, a + b)
    ensures WithWords(s, []) == s
  {
    assert s.command.words + a + b == s.command.words + (a + b);
    assert s.command.words + [] == s.command.words;
  }

  lemma WordsCons(ws: seq<string>, rest: seq<string>)
    requires ws != []
    ensures AllFinal(Words(ws)) + rest == [ws[0]] + (AllFinal(Words(ws[1..])) + rest)
  {
    FinalCons(Word(ws[0]), Words(ws[1..]));
    PrependRest([ws[0]], AllFinal(Words(ws[1..])), rest);
  }

  lemma PrependRest(a: seq<string>, b: seq<string>, rest: seq<string>)
    ensures a + b + rest == a + (b + rest)
  {}

  lemma FinalCons(i: Item, items: seq<Item>)
    ensures AllFinal([i] + items) == [i.text] + AllFinal(items)
  {
    assert ([i] + items)[1..] == items;
  }

  lemma {:induction false} ParseWords(s: ParseState, ws: seq<string>, rest: seq<string>)
    requires forall w | w in ws :: !KnownOp(w)
    ensures s.Run(AllFinal(Words(ws)) + rest) == WithWords(s, ws).Run(rest)
    decreases |ws|
  {
    if ws == [] {
      WithWordsConcat(s, [], []);
      assert AllFinal(Words(ws)) + rest == rest;
    } else {
      assert ws[0] in ws;
      WordsCons(ws, rest);
      RunWordToken(s, ws[0], AllFinal(Words(ws[1..])) + rest);
      ParseWords(WithWords(s, [ws[0]]), ws[1..], rest);
      WithWordsConcat(s, [ws[0]], ws[1..]);
      assert [ws[0]] + ws[1..] == ws;
    }
  }

  function WithRedirections(s: ParseState, rs: seq<Redirection>): ParseState {
    s.(command := s.command.(redirections := s.command.redirections + rs))
  }

  lemma WithRedirectionsConcat(s: ParseState, a: seq<Redirection>, b: seq<Redirection>)
    ensures WithRedirections(WithRedirections(s, a), b) == WithRedirections(s, a + b)
    ensures WithRedirections(s, []) == s
  {
    assert s.command.redirections + a + b == s.command.redirections + (a + b);
    assert s.command.redirections + [] == s.command.redirections;
  }

  lemma RedirectionsCons(rs: seq<Redirection>, rest: seq<string>)
    requires rs != []
    ensures AllFinal(Redirections(rs)) + rest
         == [rs[0].operator, rs[0].target] + (AllFinal(Redirections(rs[1..])) + rest)
  {
    FinalTwo(Op(rs[0].operator), Word(rs[0].target), Redirections(rs[1..]));
    PrependRest([rs[0].operator, rs[0].target], AllFinal(Redirections(rs[1..])), rest);
  }

  lemma FinalTwo(a: Item, b: Item, items: seq<Item>)
    ensures AllFinal([a, b] + items) == [a.text, b.text] + AllFinal(items)
  {
    assert [a, b] + items == [a] + ([b] + items);
    FinalCons(a, [b] + items);
    FinalCons(b, items);
    PrependRest([a.text], [b.text], AllFinal(items));
  }

  lemma {:induction false} ParseRedirections(s: ParseState, rs: seq<Redirection>, rest: seq<string>)
    requires forall r | r in rs :: IsRedirection(r.operator) && r.fd == Descriptor(r.operator)
    ensures s.Run(AllFinal(Redirections(rs)) + rest) == WithRedirections(s, rs).Run(rest)
    decreases |rs|
  {
    if rs == [] {
      WithRedirectionsConcat(s, [], []);
      assert AllFinal(Redirections(rs)) + rest == rest;
    } else {
      assert rs[0] in rs;
      RedirectionsCons(rs, rest);
      RunRedirection(s, rs[0], AllFinal(Redirections(rs[1..])) + rest);
      ParseRedirections(WithRedirections(s, [rs[0]]), rs[1..], rest);
      WithRedirectionsConcat(s, [rs[0]], rs[1..]);
      assert [rs[0]] + rs[1..] == rs;
    }
  }

  lemma FinalOne(i: Item)
    ensures AllFinal([i]) == [i.text]
  {
    assert [i][1..] == [];
  }

  lemma CommandTokens(c: Command, rest: seq<string>)
    ensures AllFinal(CommandItems(c)) + rest == AllFinal(Words(c.words)) + (AllFinal(Redirections(c.redirections)) + rest)
  {
    FinalConcat(Words(c.words), Redirections(c.redirections));
  }

  lemma ParseCommand(s: ParseState, c: Command, rest: seq<string>)
    requires ShapedCommand(c) && s.command == NO_COMMAND
    ensures s.Run(AllFinal(CommandItems(c)) + rest) == s.(command := c).Run(rest)
  {
    CommandTokens(c, rest);
    ParseWords(s, c.words, AllFinal(Redirections(c.redirections)) + rest);
    ParseRedirections(WithWords(s, c.words), c.redirections, rest);
    assert WithRedirections(WithWords(s, c.words), c.redirections) == s.(command := c) by {
      assert [] + c.words == c.words && [] + c.redirections == c.redirections;
    }
  }

  /** The tokens of two parts with an operator between them. */
  lemma FinalAround(a: seq<Item>, t: string, b: seq<Item>, rest: seq<string>)
    ensures AllFinal(a + [Op(t)] + b) + rest == AllFinal(a) + ([t] + (AllFinal(b) + rest))
  {
    FinalConcat(a + [Op(t)], b);
    FinalConcat(a, [Op(t)]);
    FinalOne(Op(t));
  }

  /** The state with these commands read, the last of them still open. */
  function Holding(s: ParseState, cs: seq<Command>): ParseState
    requires cs != []
  {
    s.(pipeline := s.pipeline + cs[..|cs| - 1], command := cs[|cs| - 1])
  }

  lemma HoldingCons(s: ParseState, cs: seq<Command>)
    requires |cs| > 1
    ensures Holding(s.(pipeline := s.pipeline + [cs[0]], command := NO_COMMAND), cs[1..]) == Holding(s, cs)
  {
    assert s.pipeline + [cs[0]] + cs[1..][..|cs| - 2] == s.pipeline + cs[..|cs| - 1];
  }

  /** After a pipeline all its commands are flushed but the last. */
  lemma {:induction false} ParsePipeline(s: ParseState, cs: seq<Command>, rest: seq<string>)
    requires cs != [] && ShapedPipeline(cs) && s.command == NO_COMMAND
    ensures s.Run(AllFinal(PipelineItems(cs)) + rest) == Holding(s, cs).Run(rest)
    decreases |cs|
  {
    assert cs[0] in cs;
    if |cs| == 1 {
      ParseCommand(s, cs[0], rest);
      assert s.pipeline + cs[..0] == s.pipeline;
    } else {
      var tail := AllFinal(PipelineItems(cs[1..])) + rest;
      FinalAround(CommandItems(cs[0]), "|", PipelineItems(cs[1..]), rest);
      ParseCommand(s, cs[0], ["|"] + tail);
      RunPipe(s.(command := cs[0]), tail);
      ParsePipeline(s.(pipeline := s.pipeline + [cs[0]], command := NO_COMMAND), cs[1..], rest);
      HoldingCons(s, cs);
    }
  }

  lemma FlushWhole(s: ParseState, cs: seq<Command>)
    requires cs != [] && ShapedPipeline(cs) && s.pipeline == []
    ensures Holding(s, cs).command.words != []
    ensures Holding(s, cs).FlushPipeline()
         == Ok(s.(statements := s.statements + [Statement(s.previous, cs)], pipeline := [],
                  command := NO_COMMAND, previous := Sequence))
  {
    assert cs[|cs| - 1] in cs;
    assert [] + cs[..|cs| - 1] + [cs[|cs| - 1]] == cs;
  }

  /** The statement list as the parser numbers it: the first connector is whatever was pending. */
  function Pending(previous: Connector, ss: seq<Statement>): seq<Statement> {
    if ss == [] then [] else [ss[0].(previous := previous)] + ss[1..]
  }

  lemma PendingCons(done: seq<Statement>, previous: Connector, ss: seq<Statement>)
    requires |ss| > 1
    ensures done + [Statement(previous, ss[0].commands)] + Pending(ss[1].previous, ss[1..]) == done + Pending(previous, ss)
  {
    assert Pending(ss[1].previous, ss[1..]) == ss[1..];
  }

  lemma {:induction false} ParseStatements(s: ParseState, ss: seq<Statement>)
    requires ss != [] && s.pipeline == [] && s.command == NO_COMMAND
    requires Connected(ss)
    ensures s.Run(AllFinal(StatementItems(ss)) + []).Ok?
    ensures var r := s.Run(AllFinal(StatementItems(ss)) + []).value;
            r.command.words != [] && r.FlushPipeline().Ok?
            && r.FlushPipeline().value.statements == s.statements + Pending(s.previous, ss)
    decreases |ss|
  {
    var cs := ss[0].commands;
    FlushWhole(s, cs);
    if |ss| == 1 {
      ParsePipeline(s, cs, []);
      assert Pending(s.previous, ss) == [Statement(s.previous, cs)];
    } else {
      var c := ss[1].previous;
      var tail := AllFinal(StatementItems(ss[1..])) + [];
      FinalAround(PipelineItems(cs), Symbol(c), StatementItems(ss[1..]), []);
      ParsePipeline(s, cs, [Symbol(c)] + tail);
      RunConnector(Holding(s, cs), c, tail);
      ParseStatements(Holding(s, cs).FlushPipeline().value.(previous := c), ss[1..]);
      PendingCons(s.statements, s.previous, ss);
    }
  }

  lemma {:induction false} ItemsKnown(items: seq<Item>)
    requires Laid(items)
    ensures forall i | i in items && i.Op? :: KnownOp(i.text)
    decreases |items|
  {
    if items != [] {
      if items[0].Op? && IsRedirection(items[0].text) {
        ItemsKnown(items[2..]);
        assert items == [items[0], items[1]] + items[2..];
      } else {
        ItemsKnown(items[1..]);
        assert items == [items[0]] + items[1..];
      }
    }
  }

  /** The tokens of a printing parse to what was printed. */
  lemma ParseItems(ss: seq<Statement>)
    requires Shaped(ss)
    ensures ParseTokens(AllFinal(StatementItems(ss))) == Ok(ss)
  {
    hide ParseState.Step, AllFinal, StatementItems, ShapedPipeline;
    if ss == [] {
      NoItems();
    } else {
      ParseStatements(BEGIN, ss);
      assert AllFinal(StatementItems(ss)) + [] == AllFinal(StatementItems(ss));
      assert [] + Pending(None, ss) == Pending(None, ss);
      assert First(Pending(None, ss)) == ss;
    }
  }

  lemma NoItems()
    ensures AllFinal(StatementItems([])) == []
  {}

  // ---- what a parse has read stays in its result ----

  function Parsed(s: ParseState, ts: seq<string>): Result<seq<Statement>> {
    match s.Run(ts)
    case Err(e) => Err(e)
    case Ok(r) => r.Finish()
  }

  /** The command being read is what `c` begins with. */
  predicate Begins(read: Command, c: Command) { read.words <= c.words && read.redirections <= c.redirections }

  /** The statements and commands read so far are those of the result. A command that has no
      word may be dropped. */
  predicate Kept(s: ParseState, ss: seq<Statement>) {
    var n, p := |s.statements|, |s.pipeline|;
    && n <= |ss| && (forall i | 0 <= i < n :: ss[i].commands == s.statements[i].commands)
    && (s.pipeline != [] || s.command.words != [] ==> n < |ss| && s.pipeline <= ss[n].commands)
    && (s.command.words != [] ==> p < |ss[n].commands|)
    && (n < |ss| && p < |ss[n].commands| ==> Begins(s.command, ss[n].commands[p]))
  }

  lemma KeptStep(s: ParseState, ts: seq<string>, ss: seq<Statement>)
    requires ts != [] && s.Step(ts).Ok? && Kept(s.Step(ts).value.0, ss)
    ensures Kept(s, ss)
  {
    var t := ts[0];
    var next := s.Step(ts).value.0;
    if t == "|" {
      PipeKept(s, ss);
    } else if IsConnector(t) {
      ConnectorKept(s, ConnectorOf(t), ss);
    } else if IsRedirection(t) {
      RedirectionKept(s, next.command.redirections[|s.command.redirections|], ss);
    } else {
      WordKept(s, t, ss);
    }
  }

  lemma PipeKept(s: ParseState, ss: seq<Statement>)
    requires s.command.words != [] && Kept(s.(pipeline := s.pipeline + [s.command], command := NO_COMMAND), ss)
    ensures Kept(s, ss)
  {
    var n, p := |s.statements|, |s.pipeline|;
    assert (s.pipeline + [s.command])[p] == s.command;
    assert ss[n].commands[p] == s.command && s.pipeline <= ss[n].commands;
  }

  lemma ConnectorKept(s: ParseState, c: Connector, ss: seq<Statement>)
    requires s.FlushPipeline().Ok? && Kept(s.FlushPipeline().value.(previous := c), ss)
    ensures Kept(s, ss) && |ss| > |s.statements|
    ensures ss[|s.statements|].commands == if s.command.words != [] then s.pipeline + [s.command] else s.pipeline
  {
    var n, p := |s.statements|, |s.pipeline|;
    var next := s.FlushPipeline().value.(previous := c);
    assert forall i | 0 <= i < n :: next.statements[i] == s.statements[i];
    assert ss[n].commands == next.statements[n].commands;
  }

  lemma RedirectionKept(s: ParseState, r: Redirection, ss: seq<Statement>)
    requires Kept(WithRedirections(s, [r]), ss)
    ensures Kept(s, ss)
    ensures var n, p := |s.statements|, |s.pipeline|;
            n < |ss| && p < |ss[n].commands| ==>
              |ss[n].commands[p].redirections| > |s.command.redirections|
              && ss[n].commands[p].redirections[|s.command.redirections|] == r
  {
    assert s.command.redirections <= s.command.redirections + [r];
  }

  lemma WordKept(s: ParseState, w: string, ss: seq<Statement>)
    requires Kept(WithWords(s, [w]), ss)
    ensures Kept(s, ss)
    ensures var n, p := |s.statements|, |s.pipeline|;
            n < |ss| && p < |ss[n].commands| && |ss[n].commands[p].words| > |s.command.words|
  {
    assert s.command.words <= s.command.words + [w];
  }

  lemma FinishKept(s: ParseState, ss: seq<Statement>)
    requires s.Finish() == Ok(ss)
    ensures Kept(s, ss)
  {
    if s.command.words != [] || s.pipeline != [] {
      var n := |s.statements|;
      var all := s.FlushPipeline().value.statements;
      assert ss == First(all) && all[n].commands == if s.command.words != [] then s.pipeline + [s.command] else s.pipeline;
      assert ss[n].commands == all[n].commands;
    }
  }

  lemma {:induction false} ParsedKept(s: ParseState, ts: seq<string>, ss: seq<Statement>)
    requires Parsed(s, ts) == Ok(ss)
    ensures Kept(s, ss)
    decreases |ts|
  {
    hide ParseState.Finish, ParseState.Step, Kept;
    if ts == [] {
      FinishKept(s, ss);
    } else {
      var (next, n) := s.Step(ts).value;
      ParsedKept(next, ts[n..], ss);
      KeptStep(s, ts, ss);
    }
  }

  // ---- items that join are not read back ----

  lemma WordStep(s: ParseState, w: string, rest: seq<string>)
    requires !KnownOp(w)
    ensures Parsed(s, [w] + rest) == Parsed(WithWords(s, [w]), rest)
  {
    RunWordToken(s, w, rest);
  }

  lemma RedirectionStep(s: ParseState, o: string, t: string, rest: seq<string>)
    requires IsRedirection(o)
    ensures Parsed(s, [o, t] + rest) == Parsed(WithRedirections(s, [Redirection(Descriptor(o), o, t)]), rest)
  {
    RunRedirection(s, Redirection(Descriptor(o), o, t), rest);
  }

  lemma MissingStep(s: ParseState, o: string)
    requires IsRedirection(o)
    ensures Parsed(s, [o]).Err?
  {}

  /** One step of a pipe or a connector, the same whatever follows. */
  function Divided(s: ParseState, t: string): Result<ParseState> {
    if t == "|" then s.FlushCommand()
    else if !IsConnector(t) then Err(EmptyCommand)
    else
      match s.FlushPipeline()
      case Ok(r) => Ok(r.(previous := ConnectorOf(t)))
      case Err(e) => Err(e)
  }

  lemma DividerStep(s: ParseState, t: string, rest: seq<string>)
    requires t == "|" || IsConnector(t)
    ensures Parsed(s, [t] + rest) == match Divided(s, t) case Err(e) => Err(e) case Ok(r) => Parsed(r, rest)
  {
    assert ([t] + rest)[1..] == rest;
  }

  /** Two redirections that differ, read at the same place behind a word. */
  lemma OtherRedirection(s: ParseState, a: Redirection, b: Redirection, x: seq<string>, y: seq<string>, ss: seq<Statement>)
    requires s.command.words != [] && a != b
    requires Parsed(WithRedirections(s, [a]), x) == Ok(ss)
    ensures Parsed(WithRedirections(s, [b]), y) != Ok(ss)
  {
    hide Parsed, Kept;
    ParsedKept(WithRedirections(s, [a]), x, ss);
    KeptPlace(WithRedirections(s, [a]), ss);
    RedirectionKept(s, a, ss);
    if Parsed(WithRedirections(s, [b]), y) == Ok(ss) {
      ParsedKept(WithRedirections(s, [b]), y, ss);
      RedirectionKept(s, b, ss);
    }
  }

  lemma KeptPlace(s: ParseState, ss: seq<Statement>)
    requires Kept(s, ss) && s.command.words != []
    ensures |s.statements| < |ss| && |s.pipeline| < |ss[|s.statements|].commands|
  {}

  /** The word `2` that joins the redirection behind it becomes the redirection's. */
  lemma TwoLost(s: ParseState, o: string, t: string, x: seq<string>, a: string, y: seq<string>, ss: seq<Statement>)
    requires o == ">" || o == ">>"
    requires a == "2>" || a == "2>&1"
    requires Parsed(s, ["2"] + ([o, t] + x)) == Ok(ss)
    ensures Parsed(s, [a] + y) != Ok(ss)
  {
    hide Parsed, Kept;
    var worded := WithWords(s, ["2"]);
    var r := Redirection(Descriptor(o), o, t);
    WordStep(s, "2", [o, t] + x);
    RedirectionStep(worded, o, t, x);
    ParsedKept(WithRedirections(worded, [r]), x, ss);
    KeptPlace(WithRedirections(worded, [r]), ss);
    RedirectionKept(worded, r, ss);
    if y == [] {
      assert [a] + y == [a];
      MissingStep(s, a);
    } else {
      assert [a] + y == [a, y[0]] + y[1..];
      RedirectionStep(s, a, y[0], y[1..]);
      var q := Redirection(Descriptor(a), a, y[0]);
      if Parsed(s, [a] + y) == Ok(ss) {
        ParsedKept(WithRedirections(s, [q]), y[1..], ss);
        RedirectionKept(s, q, ss);
      }
    }
  }

  /** The word `&` that joins the next becomes a connector. */
  lemma AndLost(s: ParseState, x: seq<string>, y: seq<string>, ss: seq<Statement>)
    requires Parsed(s, ["&"] + x) == Ok(ss)
    ensures Parsed(s, ["&&"] + y) != Ok(ss)
  {
    hide Parsed, Kept;
    WordStep(s, "&", x);
    ParsedKept(WithWords(s, ["&"]), x, ss);
    WordKept(s, "&", ss);
    DividerStep(s, "&&", y);
    if Parsed(s, ["&&"] + y) == Ok(ss) {
      ParsedKept(Divided(s, "&&").value, y, ss);
      ConnectorKept(s, And, ss);
    }
  }

  lemma NormalizedHead(ts: seq<string>)
    requires ts != []
    ensures Normalized(ts) == [Combined(ts).0] + Normalized(ts)[1..]
  {
    hide Combined;
  }

  /** What a joining word recombines to. */
  lemma JoinedWord(items: seq<Item>)
    requires Laid(items) && items != [] && items[0].Word? && JoinsAt(items, 0)
    ensures AllRaw(items) != []
    ensures var a := Combined(AllRaw(items)).0;
            || (items[0].text == "&" && a == "&&")
            || (items[0].text == "2" && (a == "2>" || a == "2>&1") && |items| > 2 && items[1].Op?
                && (items[1].text == ">" || items[1].text == ">>"))
  {
    hide Combined, AllRaw, Laid, Joins;
    RawAhead(items[1..]);
    AllRawFirst(items);
    JoiningWord(items);
    JoinedTokens(items[0].text, AllRaw(items[1..]));
    if items[0].text == "2" { NextRedirects(items); }
  }

  lemma JoiningWord(items: seq<Item>)
    requires Laid(items) && items != [] && items[0].Word? && JoinsAt(items, 0)
    ensures items[0].text == "2" || items[0].text == "&"
  {}

  lemma JoinedTokens(w: string, rest: seq<string>)
    requires rest != [] && Joins(w, rest[0]) && (w == "2" || w == "&")
    ensures var a := Combined([w] + rest).0; if w == "&" then a == "&&" else a == "2>" || a == "2>&1"
  {
    assert ([w] + rest)[1] == rest[0];
  }

  lemma NextRedirects(items: seq<Item>)
    requires Laid(items) && items != [] && items[0] == Word("2") && JoinsAt(items, 0)
    ensures |items| > 2 && items[1].Op? && (items[1].text == ">" || items[1].text == ">>")
  {
    if items[1].Op? { OpKinds(items[1].text); }
  }

  lemma WordLost(s: ParseState, items: seq<Item>, ss: seq<Statement>)
    requires Laid(items) && items != [] && items[0].Word? && JoinsAt(items, 0)
    requires Parsed(s, AllFinal(items)) == Ok(ss)
    ensures Parsed(s, Normalized(AllRaw(items))) != Ok(ss)
  {
    hide Combined, Normalized, Parsed, AllRaw, Laid, KnownOp, Joins;
    JoinedWord(items);
    var a := Combined(AllRaw(items)).0;
    NormalizedHead(AllRaw(items));
    var y := Normalized(AllRaw(items))[1..];
    FinalFirst(items);
    if items[0].text == "&" {
      AndLost(s, AllFinal(items[1..]), y, ss);
    } else {
      var x := AllFinal(items[3..]);
      FinalFirst(items[1..]);
      FinalFirst(items[1..][1..]);
      assert items[1..][1..][1..] == items[3..] && items[1..][0] == items[1] && items[1..][1..][0] == items[2];
      assert AllFinal(items[1..]) == [items[1].text, items[2].text] + x;
      TwoLost(s, items[1].text, items[2].text, x, a, y, ss);
    }
  }

  /** What is read in place of a redirection of which one part joins the next. */
  lemma JoinedRedirection(items: seq<Item>)
    requires Laid(items) && items != [] && items[0].Op? && IsRedirection(items[0].text) && (JoinsAt(items, 0) || JoinsAt(items, 1))
    ensures var ts := Normalized(AllRaw(items));
            && ts != [] && IsRedirection(ts[0]) && |items| > 1
            && (|ts| > 1 ==> ts[0] != items[0].text || ts[1] != items[1].text)
  {
    hide Normalized, Combined, AllRaw, Laid, Joins;
    LaidTarget(items);
    AllRawFirst(items);
    RawAhead(items);
    var raw := AllRaw(items);
    NormalizedHead(raw);
    if JoinsAt(items, 0) {
      JoinedOperator(items);
    } else {
      ItemCombines(items);
      NormalizedFirst(items);
      TargetCombines(items);
      NormalizedHead(AllRaw(items[1..]));
    }
  }

  lemma LaidTarget(items: seq<Item>)
    requires Laid(items) && items != [] && items[0].Op? && IsRedirection(items[0].text)
    ensures |items| > 1 && items[1].Word?
  {}

  lemma JoinedOperator(items: seq<Item>)
    requires Laid(items) && items != [] && items[0].Op? && IsRedirection(items[0].text) && JoinsAt(items, 0)
    ensures AllRaw(items) != [] && items[0].text == ">" && Combined(AllRaw(items)).0 == ">>"
  {
    RawAhead(items[1..]);
    AllRawFirst(items);
    assert AllRaw(items)[1] == AllRaw(items[1..])[0];
  }

  lemma RedirectionLost(s: ParseState, items: seq<Item>, ss: seq<Statement>)
    requires Laid(items) && items != [] && items[0].Op? && IsRedirection(items[0].text) && (JoinsAt(items, 0) || JoinsAt(items, 1))
    requires s.command.words != [] && Parsed(s, AllFinal(items)) == Ok(ss)
    ensures Parsed(s, Normalized(AllRaw(items))) != Ok(ss)
  {
    hide Normalized, Parsed, AllRaw, Laid, JoinsAt, AllFinal, IsRedirection, Descriptor;
    JoinedRedirection(items);
    var ts := Normalized(AllRaw(items));
    var o, t := items[0].text, items[1].text;
    FinalFirst(items);
    FinalFirst(items[1..]);
    var x := AllFinal(items[1..][1..]);
    assert AllFinal(items) == [o, t] + x;
    RedirectionStep(s, o, t, x);
    if |ts| == 1 {
      assert ts == [ts[0]];
      MissingStep(s, ts[0]);
    } else {
      assert ts == [ts[0], ts[1]] + ts[2..];
      RedirectionStep(s, ts[0], ts[1], ts[2..]);
      OtherRedirection(s, Redirection(Descriptor(o), o, t), Redirection(Descriptor(ts[0]), ts[0], ts[1]), x, ts[2..], ss);
    }
  }

  /** Redirections stand behind a word. */
  predicate Worded(s: ParseState, items: seq<Item>) { items != [] && items[0].Op? ==> s.command.words != [] }

  /** Behind an operator that is no redirection there is a word, which cannot join it. */
  lemma DividerApart(items: seq<Item>)
    requires Laid(items) && items != [] && !(items[0].Op? && IsRedirection(items[0].text))
    ensures items[0].Op? ==> !JoinsAt(items, 0)
  {}

  /** Both readings take the item as it is. */
  lemma JoinedLostOne(s: ParseState, items: seq<Item>, ss: seq<Statement>) returns (next: ParseState)
    requires Laid(items) && items != [] && !(items[0].Op? && IsRedirection(items[0].text)) && !JoinsAt(items, 0)
    requires Parsed(s, AllFinal(items)) == Ok(ss) && Parsed(s, Normalized(AllRaw(items))) == Ok(ss)
    ensures Laid(items[1..]) && Worded(next, items[1..])
    ensures Parsed(next, AllFinal(items[1..])) == Ok(ss) && Parsed(next, Normalized(AllRaw(items[1..]))) == Ok(ss)
  {
    hide Combined, Normalized, Parsed, AllRaw, AllFinal, Joins, JoinsAt;
    var t := items[0].text;
    ItemCombines(items);
    RawAhead(items);
    NormalizedFirst(items);
    FinalFirst(items);
    if items[0].Word? {
      WordStep(s, t, AllFinal(items[1..]));
      WordStep(s, t, Normalized(AllRaw(items[1..])));
      next := WithWords(s, [t]);
    } else {
      DividerStep(s, t, AllFinal(items[1..]));
      DividerStep(s, t, Normalized(AllRaw(items[1..])));
      next := Divided(s, t).value;
    }
  }

  lemma JoinedLostTarget(s: ParseState, items: seq<Item>, ss: seq<Statement>)
    requires Laid(items) && items != [] && items[0].Op? && IsRedirection(items[0].text) && !JoinsAt(items, 0) && !JoinsAt(items, 1)
    requires Parsed(s, AllFinal(items)) == Ok(ss) && Parsed(s, Normalized(AllRaw(items))) == Ok(ss)
    ensures |items| > 1 && Laid(items[2..])
    ensures var next := WithRedirections(s, [Redirection(Descriptor(items[0].text), items[0].text, items[1].text)]);
            Parsed(next, AllFinal(items[2..])) == Ok(ss) && Parsed(next, Normalized(AllRaw(items[2..]))) == Ok(ss)
  {
    hide Combined, Normalized, Parsed, AllRaw, AllFinal, Joins, JoinsAt, Descriptor;
    var o, t := items[0].text, items[1].text;
    var rest := items[2..];
    ItemCombines(items);
    RawAhead(items);
    NormalizedFirst(items);
    FinalFirst(items);
    TargetCombines(items);
    NormalizedFirst(items[1..]);
    FinalFirst(items[1..]);
    assert items[1..][1..] == rest;
    assert AllFinal(items) == [o, t] + AllFinal(rest);
    assert Normalized(AllRaw(items)) == [o, t] + Normalized(AllRaw(rest));
    RedirectionStep(s, o, t, AllFinal(rest));
    RedirectionStep(s, o, t, Normalized(AllRaw(rest)));
  }

  /** Items of which two join are not read back as they are. */
  lemma {:induction false} JoinedLost(s: ParseState, items: seq<Item>, ss: seq<Statement>)
    requires Laid(items) && Worded(s, items)
    requires Parsed(s, AllFinal(items)) == Ok(ss) && Parsed(s, Normalized(AllRaw(items))) == Ok(ss)
    ensures Apart(items)
    decreases |items|
  {
    hide Combined, Normalized, Parsed, AllRaw, AllFinal, KnownOp, Joins, JoinsAt;
    if items != [] {
      if items[0].Op? && IsRedirection(items[0].text) {
        if JoinsAt(items, 0) || JoinsAt(items, 1) {
          RedirectionLost(s, items, ss);
        } else {
          JoinedLostTarget(s, items, ss);
          JoinedLost(WithRedirections(s, [Redirection(Descriptor(items[0].text), items[0].text, items[1].text)]), items[2..], ss);
          ApartTail(items, 2);
        }
      } else if items[0].Word? && JoinsAt(items, 0) {
        WordLost(s, items, ss);
      } else {
        DividerApart(items);
        var next := JoinedLostOne(s, items, ss);
        JoinedLost(next, items[1..], ss);
        ApartTail(items, 1);
      }
    }
  }

  lemma PrintLexes(ss: seq<Statement>)
    requires Shaped(ss)
    ensures LexSpec(Print(ss)) == Ok(Normalized(AllRaw(StatementItems(ss))))
  {
    hide LexState.Run, LexState.Step, StatementItems, AllRaw, Normalized, KnownOp, Laid;
    var items := StatementItems(ss);
    StatementsLaid(ss);
    ItemsKnown(items);
    RunItems([], items);
    assert [] + AllRaw(items) == AllRaw(items);
  }

  /** Parsing undoes printing exactly if no text among the printed words, targets and operators
      recombines with what follows it: `2` before `>`, `&` before `&`, and a target `|` or `>`
      before the same, or behind the same. */
  lemma ParsePrint(ss: seq<Statement>)
    requires Shaped(ss)
    ensures ParseSpec(Print(ss)) == Ok(ss) <==> Apart(StatementItems(ss))
  {
    hide StatementItems, AllRaw, AllFinal, Normalized, Apart, Laid, LexSpec, Print, Shaped;
    var items := StatementItems(ss);
    LaidInAll(ss);
    PrintLexes(ss);
    ParseItems(ss);
    if Apart(items) {
      NormalizeItems(items);
    } else if Parsed(BEGIN, Normalized(AllRaw(items))) == Ok(ss) {
      JoinedLost(BEGIN, items, ss);
    }
  }

  lemma LaidInAll(ss: seq<Statement>)
    requires Shaped(ss)
    ensures Laid(StatementItems(ss)) && Worded(BEGIN, StatementItems(ss))
  {
    StatementsLaid(ss);
  }

  /** So whatever was parsed, printing and parsing it again gives the same statements exactly
      under that condition. */
  lemma PrintIsNormalForm(input: string)
    requires ParseSpec(input).Ok?
    ensures var ss := ParseSpec(input).value;
            ParseSpec(Print(ss)) == Ok(ss) <==> Apart(StatementItems(ss))
  {
    hide ParseSpec, Print, StatementItems, Apart, Shaped;
    ParseShape(input);
    ParsePrint(ParseSpec(input).value);
  }

  /** Quoting does not survive lexing: a one-word command round-trips exactly
      when the word is not itself an operator. */
  lemma QuotedWordExact(w: string)
    ensures ParseSpec(Escape(w)) == Ok([Statement(None, [Command([w], [])])]) <==> !KnownOp(w)
  {
    var s := START;
    if w == "" {
      RunPair(s, '\'', '\'');
      assert "''" == ['\'', '\''];
    } else {
      RunBackslashed(s, w);
      assert "" + w == w;
    }
    assert s.Run(Escape(w)).Flush().out == [w] by { assert [] + [w] == [w]; }
    assert [w][1..] == [];
    assert Normalized([w]) == [w] by { assert Combined([w]) == (w, 1); }
    OneToken(w);
  }

  lemma OneToken(w: string)
    ensures ParseTokens([w]) == Ok([Statement(None, [Command([w], [])])]) <==> !KnownOp(w)
  {
    assert [w][1..] == [];
    if !KnownOp(w) {
      var s := BEGIN.(command := Command([w], []));
      assert BEGIN.Step([w]) == Ok((s, 1)) by { assert [] + [w] == [w]; }
      assert BEGIN.Run([w]) == Ok(s);
      var one := Statement(None, [s.command]);
      assert s.FlushPipeline().value.statements == [one] by {
        assert [] + [s.command] == [s.command] && [] + [one] == [one];
      }
      assert First([one]) == [one];
    } else {
      assert BEGIN.Step([w]).Err?;
    }
  }
}
