/** Quoting, escaping and blanks: what each way of writing a word lexes to, what separates
    words, and what is refused. */
module Quoting {
  import opened Shell
  import opened ShellPrinter

  /** A character inside double quotes, with or without a backslash. */
  datatype Inner = Inner(c: char, marked: bool)

  /** One stretch of a word. */
  datatype Piece =
    | Bare(text: string)
    | Escaped(c: char)
    | SingleQuoted(text: string)
    | DoubleQuoted(inner: seq<Inner>)

  const BLANKS := " \t\r\n"
  const BREAKS := "|;><&"

  predicate PlainChar(c: char) { c !in BLANKS && c !in BREAKS && c != '\'' && c != '"' && c != '\\' }

  predicate FairInner(inner: seq<Inner>) { forall i | i in inner :: i.c == '"' || i.c == '\\' ==> i.marked }

  predicate Fair(p: Piece) {
    match p
    case Bare(text) => text != "" && forall c | c in text :: PlainChar(c)
    case Escaped(_) => true
    case SingleQuoted(text) => '\'' !in text
    case DoubleQuoted(inner) => FairInner(inner)
  }

  predicate AllFair(ps: seq<Piece>) { forall p | p in ps :: Fair(p) }

  function InnerText(inner: seq<Inner>): string {
    if inner == [] then "" else (if inner[0].marked then "\\" + [inner[0].c] else [inner[0].c]) + InnerText(inner[1..])
  }

  function InnerMeaning(inner: seq<Inner>): string { seq(|inner|, i requires 0 <= i < |inner| => inner[i].c) }

  /** How the stretch is written, and what it stands for. */
  function Shown(p: Piece): string {
    match p
    case Bare(text) => text
    case Escaped(c) => "\\" + [c]
    case SingleQuoted(text) => "'" + text + "'"
    case DoubleQuoted(inner) => "\"" + InnerText(inner) + "\""
  }

  function Meaning(p: Piece): string {
    match p
    case Bare(text) => text
    case Escaped(c) => [c]
    case SingleQuoted(text) => text
    case DoubleQuoted(inner) => InnerMeaning(inner)
  }

  function Spelling(ps: seq<Piece>): string { if ps == [] then "" else Shown(ps[0]) + Spelling(ps[1..]) }

  function Means(ps: seq<Piece>): string { if ps == [] then "" else Meaning(ps[0]) + Means(ps[1..]) }

  // ---- one stretch ----

  /** Between characters of a word, outside quotes. */
  predicate Open(s: LexState) { s.quote == Unquoted && !s.escaped }

  lemma RunFirst(s: LexState, c: char, rest: string)
    ensures s.Run([c] + rest) == s.Step(c).Run(rest)
  {
    assert ([c] + rest)[1..] == rest;
  }

  lemma Longer(w: string, c: char, rest: string)
    ensures w + [c] + rest == w + ([c] + rest)
  {}

  lemma {:induction false} RunBare(s: LexState, text: string)
    requires Open(s) && (forall c | c in text :: PlainChar(c)) && (text == "" ==> s.started)
    ensures s.Run(text) == s.(word := s.word + text, started := true)
    decreases |text|
  {
    if text == "" {
      assert s.word + "" == s.word;
    } else {
      var c, rest := text[0], text[1..];
      assert c in text && text == [c] + rest && forall d | d in rest :: d in text;
      RunBare(s.(word := s.word + [c], started := true), rest);
      Longer(s.word, c, rest);
    }
  }

  lemma {:induction false} RunSingle(s: LexState, text: string)
    requires s.quote == Single && !s.escaped && '\'' !in text && s.started
    ensures s.Run(text) == s.(word := s.word + text)
    decreases |text|
  {
    if text == "" {
      assert s.word + "" == s.word;
    } else {
      var c, rest := text[0], text[1..];
      assert c in text && text == [c] + rest && forall d | d in rest :: d in text;
      RunSingle(s.(word := s.word + [c]), rest);
      Longer(s.word, c, rest);
    }
  }

  lemma {:induction false} RunDouble(s: LexState, inner: seq<Inner>)
    requires s.quote == Double && !s.escaped && FairInner(inner) && s.started
    ensures s.Run(InnerText(inner)) == s.(word := s.word + InnerMeaning(inner))
    decreases |inner|
  {
    if inner == [] {
      assert s.word + InnerMeaning(inner) == s.word;
    } else {
      var i, rest := inner[0], inner[1..];
      assert i in inner && forall j | j in rest :: j in inner;
      var next := s.(word := s.word + [i.c]);
      if i.marked {
        RunPair(s, '\\', i.c);
        assert "\\" + [i.c] == ['\\', i.c];
        RunConcat(s, "\\" + [i.c], InnerText(rest));
      } else {
        RunFirst(s, i.c, InnerText(rest));
      }
      RunDouble(next, rest);
      assert InnerMeaning(inner) == [i.c] + InnerMeaning(rest);
      Longer(s.word, i.c, InnerMeaning(rest));
    }
  }

  /** Every stretch adds what it stands for to the word. */
  lemma RunPiece(s: LexState, p: Piece)
    requires Open(s) && Fair(p)
    ensures s.Run(Shown(p)) == s.(word := s.word + Meaning(p), started := true)
  {
    hide LexState.Run;
    match p
    case Bare(text) => RunBare(s, text);
    case Escaped(c) =>
      RunPair(s, '\\', c);
      assert "\\" + [c] == ['\\', c];
    case SingleQuoted(text) =>
      RunFirst(s, '\'', text + "'");
      assert "'" + text + "'" == ['\''] + (text + "'");
      var quoted := s.Step('\'');
      RunConcat(quoted, text, "'");
      RunSingle(quoted, text);
      RunOne(quoted.(word := quoted.word + text), '\'');
    case DoubleQuoted(inner) =>
      RunFirst(s, '"', InnerText(inner) + "\"");
      assert "\"" + InnerText(inner) + "\"" == ['"'] + (InnerText(inner) + "\"");
      var quoted := s.Step('"');
      RunConcat(quoted, InnerText(inner), "\"");
      RunDouble(quoted, inner);
      RunOne(quoted.(word := quoted.word + InnerMeaning(inner)), '"');
  }

  /** And so do several, one behind the other. */
  lemma {:induction false} RunPieces(s: LexState, ps: seq<Piece>)
    requires Open(s) && AllFair(ps) && (ps == [] ==> s.started)
    ensures s.Run(Spelling(ps)) == s.(word := s.word + Means(ps), started := true)
    decreases |ps|
  {
    hide LexState.Run, Fair, Shown, Meaning;
    if ps == [] {
      RunNothing(s);
      assert s.word + "" == s.word;
    } else {
      assert ps[0] in ps && forall p | p in ps[1..] :: p in ps;
      RunConcat(s, Shown(ps[0]), Spelling(ps[1..]));
      RunPiece(s, ps[0]);
      RunPieces(s.(word := s.word + Meaning(ps[0]), started := true), ps[1..]);
      Longest(s.word, Meaning(ps[0]), Means(ps[1..]));
    }
  }

  lemma RunNothing(s: LexState)
    ensures s.Run("") == s
  {}

  lemma Longest(a: string, b: string, c: string)
    ensures a + b + c == a + (b + c)
  {}

  // ---- words ----

  lemma OneRaw(w: string)
    ensures Normalized([w]) == [w]
  {
    assert [w][1..] == [] && Combined([w]) == (w, 1);
  }

  /** However a word is put together, it is lexed to what its stretches stand for. */
  lemma SpelledWord(ps: seq<Piece>)
    requires ps != [] && AllFair(ps)
    ensures LexSpec(Spelling(ps)) == Ok([Means(ps)])
  {
    hide LexState.Run, Spelling, Means, Fair, Normalized;
    RunPieces(START, ps);
    assert "" + Means(ps) == Means(ps);
    OneRaw(Means(ps));
    assert [] + [Means(ps)] == [Means(ps)];
  }

  /** So single quotes keep every character but their own, and double quotes every one
      but `"` and the backslash, which a backslash keeps. */
  lemma QuotesKeep(w: string)
    ensures '\'' !in w ==> LexSpec("'" + w + "'") == Ok([w])
    ensures LexSpec("\"" + Marked(w) + "\"") == Ok([w])
  {
    hide LexSpec;
    One(SingleQuoted(w));
    One(DoubleQuoted(MarkedInner(w)));
    MarkedText(w);
    if '\'' !in w { SpelledWord([SingleQuoted(w)]); }
    SpelledWord([DoubleQuoted(MarkedInner(w))]);
    assert InnerMeaning(MarkedInner(w)) == w;
  }

  function MarkedInner(w: string): seq<Inner> {
    seq(|w|, i requires 0 <= i < |w| => Inner(w[i], w[i] == '"' || w[i] == '\\'))
  }

  /** `w` with `"` and the backslash behind backslashes. */
  function Marked(w: string): string {
    if w == "" then "" else (if w[0] == '"' || w[0] == '\\' then "\\" + [w[0]] else [w[0]]) + Marked(w[1..])
  }

  lemma {:induction false} MarkedText(w: string)
    ensures InnerText(MarkedInner(w)) == Marked(w)
    decreases |w|
  {
    if w != "" {
      assert MarkedInner(w)[1..] == MarkedInner(w[1..]);
      MarkedText(w[1..]);
    }
  }

  lemma One(p: Piece)
    ensures Spelling([p]) == Shown(p) && Means([p]) == Meaning(p)
  {
    assert [p][1..] == [];
    assert Shown(p) + "" == Shown(p) && Meaning(p) + "" == Meaning(p);
  }

  /** A one-word line is that word, however it is spelled, exactly if it is no operator. */
  lemma SpelledWordExact(ps: seq<Piece>)
    requires ps != [] && AllFair(ps)
    ensures ParseSpec(Spelling(ps)) == Ok([Statement(None, [Command([Means(ps)], [])])]) <==> !KnownOp(Means(ps))
  {
    hide LexSpec, KnownOp, ParseTokens;
    SpelledWord(ps);
    OneToken(Means(ps));
  }

  // ---- blanks and operator characters ----

  /** The tokens before recombination. */
  function Raw(text: string): Result<seq<string>> {
    var s := START.Run(text);
    if s.escaped then Err(TrailingEscape)
    else if s.quote != Unquoted then Err(UnterminatedQuote)
    else Ok(s.Flush().out)
  }

  lemma RawRecombined(text: string)
    ensures LexSpec(text) == match Raw(text) case Err(e) => Err(e) case Ok(ts) => Ok(Normalized(ts))
  {}

  function Behind(out: seq<string>, s: LexState): LexState { s.(out := out + s.out) }

  lemma {:induction false} RunBehind(out: seq<string>, s: LexState, text: string)
    ensures Behind(out, s).Run(text) == Behind(out, s.Run(text))
    decreases |text|
  {
    if text != "" {
      StepBehind(out, s, text[0]);
      RunBehind(out, s.Step(text[0]), text[1..]);
    }
  }

  lemma StepBehind(out: seq<string>, s: LexState, c: char)
    ensures Behind(out, s).Step(c) == Behind(out, s.Step(c))
  {
    assert out + s.out + [s.word] == out + (s.out + [s.word]);
    assert out + s.out + [[c]] == out + (s.out + [[c]]);
    assert out + (s.out + [s.word]) + [[c]] == out + (s.out + [s.word] + [[c]]);
  }

  /** The tokens of a text that stands behind these. */
  function After(front: seq<string>, r: Result<seq<string>>): Result<seq<string>> {
    match r
    case Err(e) => Err(e)
    case Ok(ts) => Ok(front + ts)
  }

  lemma CleanRuns(out: seq<string>, text: string)
    ensures var s := Clean(out).Run(text);
            After(out, Raw(text)) == if s.escaped then Err(TrailingEscape) else if s.quote != Unquoted then Err(UnterminatedQuote) else Ok(s.Flush().out)
  {
    hide LexState.Run;
    assert Clean(out) == Behind(out, START) by { assert out + [] == out; }
    RunBehind(out, START, text);
    var s := START.Run(text);
    assert out + s.out + [s.word] == out + (s.out + [s.word]);
  }

  lemma {:induction false} RunTidy(s: LexState, text: string)
    requires !s.started ==> s.word == ""
    ensures var r := s.Run(text); !r.started ==> r.word == ""
    decreases |text|
  {
    if text != "" { RunTidy(s.Step(text[0]), text[1..]); }
  }

  /** A blank of any kind ends a word and is no token itself. */
  lemma BlankSeparates(a: string, blank: char, b: string)
    requires Raw(a).Ok? && blank in " \t\r\n"
    ensures Raw(a + [blank] + b) == After(Raw(a).value, Raw(b))
  {
    hide LexState.Run;
    var s := START.Run(a);
    RunConcat(START, a + [blank], b);
    RunConcat(START, a, [blank]);
    RunOne(s, blank);
    RunTidy(START, a);
    assert s.Step(blank) == Clean(s.Flush().out);
    CleanRuns(s.Flush().out, b);
  }

  /** An operator character ends a word and is a token, with blanks around it or without. */
  lemma OperatorSeparates(a: string, c: char, b: string)
    requires Raw(a).Ok? && c in "|;><&"
    ensures Raw(a + [c] + b) == After(Raw(a).value + [[c]], Raw(b))
  {
    hide LexState.Run;
    var s := START.Run(a);
    RunConcat(START, a + [c], b);
    RunConcat(START, a, [c]);
    RunOne(s, c);
    RunTidy(START, a);
    assert c !in " \t\r\n" && c != '\\' && c != '\'' && c != '"';
    assert s.Step(c) == Clean(s.Flush().out + [[c]]);
    CleanRuns(s.Flush().out + [[c]], b);
  }

  /** Nothing is no token. */
  lemma NoText()
    ensures Raw("") == Ok([])
  {}

  // ---- what is refused ----

  lemma InsideWord(a: string, ps: seq<Piece>)
    requires Raw(a).Ok? && AllFair(ps)
    ensures Open(START.Run(a + Spelling(ps)))
  {
    hide LexState.Run, Spelling, Means, Fair;
    RunConcat(START, a, Spelling(ps));
    if ps == [] {
      RunNothing(START.Run(a));
      NoSpelling();
    } else {
      RunPieces(START.Run(a), ps);
    }
  }

  lemma NoSpelling()
    ensures Spelling([]) == ""
  {}

  /** A quote that is not closed is refused, wherever it is opened. */
  lemma OpenQuoteRefused(a: string, ps: seq<Piece>, text: string, inner: seq<Inner>)
    requires Raw(a).Ok? && AllFair(ps)
    ensures '\'' !in text ==> LexSpec(a + Spelling(ps) + "'" + text) == Err(UnterminatedQuote)
    ensures FairInner(inner) ==> LexSpec(a + Spelling(ps) + "\"" + InnerText(inner)) == Err(UnterminatedQuote)
  {
    hide LexState.Run, Spelling, Fair, Normalized;
    InsideWord(a, ps);
    var front := a + Spelling(ps);
    var s := START.Run(front);
    RunConcat(START, front + "'", text);
    RunConcat(START, front, "'");
    RunOne(s, '\'');
    if '\'' !in text { RunSingle(s.Step('\''), text); }
    RunConcat(START, front + "\"", InnerText(inner));
    RunConcat(START, front, "\"");
    RunOne(s, '"');
    if FairInner(inner) { RunDouble(s.Step('"'), inner); }
  }

  /** A backslash with nothing behind it is refused, outside quotes and between double quotes. */
  lemma LastBackslashRefused(a: string, ps: seq<Piece>, inner: seq<Inner>)
    requires Raw(a).Ok? && AllFair(ps)
    ensures LexSpec(a + Spelling(ps) + "\\") == Err(TrailingEscape)
    ensures FairInner(inner) ==> LexSpec(a + Spelling(ps) + "\"" + InnerText(inner) + "\\") == Err(TrailingEscape)
  {
    hide LexState.Run, Spelling, Fair, Normalized;
    InsideWord(a, ps);
    var front := a + Spelling(ps);
    var s := START.Run(front);
    RunConcat(START, front, "\\");
    RunOne(s, '\\');
    RunConcat(START, front + "\"" + InnerText(inner), "\\");
    RunConcat(START, front + "\"", InnerText(inner));
    RunConcat(START, front, "\"");
    RunOne(s, '"');
    if FairInner(inner) {
      RunDouble(s.Step('"'), inner);
      RunOne(s.Step('"').Run(InnerText(inner)), '\\');
    }
  }

  // ---- statements, however their words are written ----

  /** An item as it is written: a word by its stretches, and blanks behind. */
  datatype Written = Written(item: Item, pieces: seq<Piece>, blanks: string)

  predicate AllBlank(t: string) { forall c | c in t :: c in " \t\r\n" }

  predicate FairlyWritten(w: Written) {
    && AllBlank(w.blanks) && w.blanks != ""
    && if w.item.Word? then w.pieces != [] && AllFair(w.pieces) && Means(w.pieces) == w.item.text else KnownOp(w.item.text)
  }

  function WrittenText(w: Written): string { (if w.item.Word? then Spelling(w.pieces) else w.item.text) + w.blanks }

  function AllText(ws: seq<Written>): string { if ws == [] then "" else WrittenText(ws[0]) + AllText(ws[1..]) }

  function Items(ws: seq<Written>): seq<Item> { seq(|ws|, i requires 0 <= i < |ws| => ws[i].item) }

  lemma {:induction false} RunBlanks(s: LexState, t: string)
    requires Open(s) && AllBlank(t) && t != "" && (!s.started ==> s.word == "")
    ensures s.Run(t) == Clean(s.Flush().out)
    decreases |t|
  {
    var c, rest := t[0], t[1..];
    assert c in t && t == [c] + rest && forall d | d in rest :: d in t;
    assert s.Step(c) == Clean(s.Flush().out);
    if rest == "" { RunOne(s, c); } else { RunBlanks(Clean(s.Flush().out), rest); }
  }

  lemma {:induction false} RunUnquoted(s: LexState, t: string)
    requires Open(s) && forall c | c in t :: c != '\'' && c != '"' && c != '\\'
    ensures Open(s.Run(t))
    decreases |t|
  {
    if t != "" {
      assert t[0] in t && forall d | d in t[1..] :: d in t;
      RunUnquoted(s.Step(t[0]), t[1..]);
    }
  }

  lemma OpUnquoted(t: string)
    requires KnownOp(t)
    ensures forall c | c in t :: c != '\'' && c != '"' && c != '\\'
  {
    OpKinds(t);
  }

  lemma RunWritten(out: seq<string>, w: Written)
    requires FairlyWritten(w)
    ensures Clean(out).Run(WrittenText(w)) == Clean(out + RawTokens(w.item))
  {
    hide LexState.Run, Spelling, Means, KnownOp, AllFair, AllBlank;
    var s := Clean(out);
    if w.item.Word? {
      RunConcat(s, Spelling(w.pieces), w.blanks);
      RunPieces(s, w.pieces);
      assert "" + w.item.text == w.item.text;
      RunBlanks(s.(word := w.item.text, started := true), w.blanks);
    } else {
      var t := w.item.text;
      RunConcat(s, t, w.blanks);
      RunOp(out, t);
      RunConcat(s, t, " ");
      RunOne(s.Run(t), ' ');
      OpUnquoted(t);
      RunUnquoted(s, t);
      RunTidy(s, t);
      RunBlanks(s.Run(t), w.blanks);
    }
  }

  lemma {:induction false} RunAllWritten(out: seq<string>, ws: seq<Written>)
    requires forall w | w in ws :: FairlyWritten(w)
    ensures Clean(out).Run(AllText(ws)) == Clean(out + AllRaw(Items(ws)))
    decreases |ws|
  {
    hide LexState.Run, FairlyWritten, WrittenText;
    if ws == [] {
      RunNothing(Clean(out));
      assert out + AllRaw(Items(ws)) == out;
    } else {
      assert ws[0] in ws && forall w | w in ws[1..] :: w in ws;
      RunConcat(Clean(out), WrittenText(ws[0]), AllText(ws[1..]));
      RunWritten(out, ws[0]);
      RunAllWritten(out + RawTokens(ws[0].item), ws[1..]);
      assert Items(ws)[1..] == Items(ws[1..]);
      RawCons(out, Items(ws));
    }
  }

  /** However the words of a statement list are quoted, and whatever blanks stand between them,
      it is parsed to that list exactly if no text recombines with what follows it. */
  lemma ParseWritten(ss: seq<Statement>, ws: seq<Written>)
    requires Shaped(ss) && Items(ws) == StatementItems(ss) && forall w | w in ws :: FairlyWritten(w)
    ensures ParseSpec(AllText(ws)) == Ok(ss) <==> Apart(StatementItems(ss))
  {
    hide LexState.Run, Items, AllText, FairlyWritten, StatementItems, AllRaw, Normalized, Apart, Shaped, ParseTokens, Print;
    RunAllWritten([], ws);
    assert [] + AllRaw(Items(ws)) == AllRaw(Items(ws));
    PrintLexes(ss);
    ParsePrint(ss);
  }
}
