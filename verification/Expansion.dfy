/** What the words of a command expand to. */
module Expansion {
  import opened Host
  import opened Interpreter
  import M = Machine
  import Paths

  lemma {:induction false} NameEndShift(a: string, b: string, i: nat)
    requires i <= |b|
    ensures NameEnd(a + b, |a| + i) == |a| + NameEnd(b, i)
    decreases |b| - i
  {
    hide NameChar;
    if i < |b| {
      assert (a + b)[|a| + i] == b[i];
      NameEndShift(a, b, i + 1);
    }
  }

  lemma {:induction false} BraceShift(a: string, b: string, i: nat)
    requires i <= |b|
    ensures BraceAt(a + b, |a| + i) == if BraceAt(b, i) < 0 then -1 else |a| + BraceAt(b, i)
    decreases |b| - i
  {
    hide CLOSE_BRACE;
    if i < |b| {
      assert (a + b)[|a| + i] == b[i];
      BraceShift(a, b, i + 1);
    }
  }

  lemma SliceShift(a: string, b: string, i: nat, j: nat)
    requires i <= j <= |b|
    ensures (a + b)[|a| + i..|a| + j] == b[i..j]
  {}

  lemma StepShift(a: string, b: string, i: nat, variables: map<string, string>)
    requires i < |b|
    ensures var (text, next) := ExpandStep(b, i, variables); ExpandStep(a + b, |a| + i, variables) == (text, |a| + next)
  {
    hide NameChar, OPEN_BRACE, CLOSE_BRACE, NameEnd, BraceAt, Value;
    assert (a + b)[|a| + i] == b[i];
    NameEndShift(a, b, i + 1);
    if i + 1 < |b| {
      assert (a + b)[|a| + i + 1] == b[i + 1];
      BraceShift(a, b, i + 2);
      var end := BraceAt(b, i + 2);
      if end >= 0 { SliceShift(a, b, i + 2, end); }
    }
    SliceShift(a, b, i + 1, NameEnd(b, i + 1));
  }

  /** What is expanded from a place on does not depend on what stands before it. */
  lemma {:induction false} ExpandShift(a: string, b: string, i: nat, variables: map<string, string>)
    requires i <= |b|
    ensures ExpandFrom(a + b, |a| + i, variables) == ExpandFrom(b, i, variables)
    decreases |b| - i
  {
    hide ExpandStep;
    if i < |b| {
      StepShift(a, b, i, variables);
      ExpandShift(a, b, ExpandStep(b, i, variables).1, variables);
    }
  }

  /** The text of a word from its start on, without the treatment of a leading tilde. */
  function Filled(word: string, variables: map<string, string>): string { ExpandFrom(word, 0, variables) }

  /** A tilde alone, or before a slash, is the home directory; every other word is filled in. */
  lemma TildeIsHome(word: string, rest: string, variables: map<string, string>)
    ensures Expand("~", variables) == if "HOME" in variables then variables["HOME"] else "/root"
    ensures Expand("~/" + rest, variables)
         == (if "HOME" in variables && variables["HOME"] != "" then variables["HOME"] else "/root") + "/" + rest
    ensures word != "~" && !("~/" <= word) ==> Expand(word, variables) == Filled(word, variables)
  {
    assert ("~/" + rest)[1..] == "/" + rest && "~/" <= "~/" + rest;
    assert ("~/" + rest)[1] == '/';
    assert |"~"| == 1;
    var home := if "HOME" in variables && variables["HOME"] != "" then variables["HOME"] else "/root";
    assert home + ("/" + rest) == home + "/" + rest;
  }

  /** Text without dollar signs stays, in front of anything. */
  lemma {:induction false} PlainFills(a: string, rest: string, variables: map<string, string>)
    requires '$' !in a
    ensures Filled(a + rest, variables) == a + Filled(rest, variables)
    decreases |a|
  {
    if a == "" {
      assert a + rest == rest;
    } else {
      var b := a[1..];
      assert a[0] in a && forall c | c in b :: c in a;
      assert a + rest == [a[0]] + (b + rest) && (a + rest)[0] == a[0];
      ExpandShift([a[0]], b + rest, 0, variables);
      PlainFills(b, rest, variables);
      assert [a[0]] + (b + Filled(rest, variables)) == a + Filled(rest, variables);
    }
  }

  /** A letter, a digit or the underscore of ASCII, by its code. */
  predicate Letter(c: char) {
    var n := c as int;
    48 <= n <= 57 || 65 <= n <= 90 || n == 95 || 97 <= n <= 122
  }

  lemma Letters(s: string)
    ensures (forall c | c in s :: Letter(c)) <==> (forall c | c in s :: NameChar(c))
    ensures s != "" ==> (Letter(s[0]) <==> NameChar(s[0]))
  {
    assert forall c :: Letter(c) <==> NameChar(c);
  }

  /** `$NAME` is the variable's value, up to the first character that is no letter, digit or
      underscore; a variable that is not set is empty. */
  lemma NameFills(name: string, rest: string, variables: map<string, string>)
    requires name != "" && (forall c | c in name :: Letter(c)) && (rest != "" ==> !Letter(rest[0]))
    ensures Filled("$" + name + rest, variables) == (if name in variables then variables[name] else "") + Filled(rest, variables)
  {
    hide NameEnd, NameChar, OPEN_BRACE, Letter;
    Letters(name);
    Letters(rest);
    NameIsReplaced(name, rest, variables);
    NamePlace(name, rest);
    ExpandShift("$" + name, rest, 0, variables);
  }

  lemma {:induction false} FirstBrace(word: string, i: nat, n: nat)
    requires i <= n < |word| && word[n] == CLOSE_BRACE && forall k | i <= k < n :: word[k] != CLOSE_BRACE
    ensures BraceAt(word, i) == n
    decreases n - i
  {
    if i < n { FirstBrace(word, i + 1, n); }
  }

  lemma {:induction false} NoBrace(word: string, i: nat)
    requires i <= |word| && forall k | i <= k < |word| :: word[k] != CLOSE_BRACE
    ensures BraceAt(word, i) == -1
    decreases |word| - i
  {
    if i < |word| { NoBrace(word, i + 1); }
  }

  function Braced(name: string): string { "$" + [OPEN_BRACE] + name + [CLOSE_BRACE] }

  /** `${NAME}` is the value too, whatever stands between the braces and behind them. */
  lemma BracedFills(name: string, rest: string, variables: map<string, string>)
    requires CLOSE_BRACE !in name
    ensures Filled(Braced(name) + rest, variables) == (if name in variables then variables[name] else "") + Filled(rest, variables)
  {
    hide OPEN_BRACE, CLOSE_BRACE, NameEnd, NameChar, BraceAt;
    var word := Braced(name) + rest;
    var n := 2 + |name|;
    assert word[0] == '$' && word[1] == OPEN_BRACE && word[n] == CLOSE_BRACE && word[2..n] == name;
    forall k | 2 <= k < n ensures word[k] != CLOSE_BRACE { assert word[k] == name[k - 2] && name[k - 2] in name; }
    FirstBrace(word, 2, n);
    ExpandShift(Braced(name), rest, 0, variables);
  }

  /** A dollar sign that begins no name stays, and so does one before a brace that is not closed. */
  lemma DollarFills(rest: string, variables: map<string, string>)
    requires rest == "" || (rest[0] == OPEN_BRACE && CLOSE_BRACE !in rest) || (rest[0] != OPEN_BRACE && !Letter(rest[0]))
    ensures Filled("$" + rest, variables) == "$" + Filled(rest, variables)
  {
    hide NameChar, OPEN_BRACE, CLOSE_BRACE, NameEnd, BraceAt, Letter;
    Letters(rest);
    var word := "$" + rest;
    assert forall k | 1 <= k < |word| :: word[k] == rest[k - 1];
    if rest != "" && rest[0] == OPEN_BRACE { NoBrace(word, 2); }
    if rest == "" || rest[0] != OPEN_BRACE { EndUnique(word, 1, NameEnd(word, 1), 1); }
    ExpandShift("$", rest, 0, variables);
  }

  // ---- matches ----

  /** A word with `*`, `?` or `[` becomes its matches, where it has any; the first word of a command,
      and every other word, is one word. */
  lemma GlobReplaces(L: Line, c: Context, word: string, first: bool)
    ensures var expanded := Expand(word, Variables(c));
            var matches := L.world.glob(c.now, expanded, L.user);
            var pattern := '*' in expanded || '?' in expanded || '[' in expanded;
            && (first || !pattern || matches == [] ==> Word(L, c, word, first) == [expanded])
            && (!first && pattern && matches != [] ==> Word(L, c, word, first) == matches)
  {}

  /** The words of a command are those of its parts, one after the other. */
  lemma {:induction false} WordsBoth(L: Line, c: Context, xs: seq<string>, ys: seq<string>, first: bool)
    requires xs != []
    ensures Words(L, c, xs + ys, first) == Words(L, c, xs, first) + Words(L, c, ys, false)
    decreases |xs|
  {
    hide Word;
    assert (xs + ys)[0] == xs[0] && (xs + ys)[1..] == xs[1..] + ys;
    if |xs| > 1 {
      WordsBoth(L, c, xs[1..], ys, false);
      Regroup(Word(L, c, xs[0], first), Words(L, c, xs[1..], false), Words(L, c, ys, false));
    } else {
      assert xs[1..] == [] && xs[1..] + ys == ys;
    }
  }

  // ---- variables of the machine ----

  /** After `export NAME=value`, `$NAME` is the value, and after `unset NAME` it is empty; other variables
      are not touched. */
  lemma ExportThenExpand(R: M.Identity, h: Host, name: string, value: string, other: string)
    requires Paths.Canonical(h.cwd) && name != "" && (forall c | c in name :: Letter(c))
    ensures var after := M.Perform(R, h, M.Export(name, value)).0;
            && Expand("$" + name, after.env) == value && after == h.(env := after.env)
            && (other != name ==> (other in after.env <==> other in h.env) && (other in h.env ==> after.env[other] == h.env[other]))
    ensures var after := M.Perform(R, h, M.Unset(name)).0;
            && Expand("$" + name, after.env) == "" && after == h.(env := after.env)
            && (other != name ==> (other in after.env <==> other in h.env) && (other in h.env ==> after.env[other] == h.env[other]))
  {
    hide ExpandFrom, Letter, Paths.Canonical;
    var given, gone := M.Perform(R, h, M.Export(name, value)).0, M.Perform(R, h, M.Unset(name)).0;
    assert "$" + name + "" == "$" + name && value + "" == value;
    assert ("$" + name)[0] == '$' && "~"[0] == '~' && "~/"[0] == '~';
    NameFills(name, "", given.env);
    NameFills(name, "", gone.env);
    TildeIsHome("$" + name, "", given.env);
    TildeIsHome("$" + name, "", gone.env);
    NothingFills(given.env);
    NothingFills(gone.env);
  }

  lemma NothingFills(variables: map<string, string>)
    ensures Filled("", variables) == ""
  {}
}
