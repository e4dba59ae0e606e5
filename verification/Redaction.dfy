/** evidence.Redact: sequential replacement of every secret by a mark. */
module Redaction {
  import opened Text

  const MARK := "[REDACTED]"
  const WORD := "REDACTED"

  /** strings.ReplaceAll(text, secret, MARK): leftmost, non-overlapping. */
  function ReplaceAll(text: string, secret: string): string
    requires secret != ""
    decreases |text|
  {
    if text == "" then ""
    else if secret <= text then MARK + ReplaceAll(text[|secret|..], secret)
    else [text[0]] + ReplaceAll(text[1..], secret)
  }

  function Redacted(text: string, secrets: seq<string>): string
    decreases |secrets|
  {
    if secrets == [] then text
    else Redacted(if secrets[0] == "" then text else ReplaceAll(text, secrets[0]), secrets[1..])
  }

  method Redact(text: string, secrets: seq<string>) returns (r: string)
    ensures r == Redacted(text, secrets)
  {
    r := text;
    for i := 0 to |secrets|
      invariant Redacted(r, secrets[i..]) == Redacted(text, secrets)
    {
      assert secrets[i..][0] == secrets[i] && secrets[i..][1..] == secrets[i + 1..];
      if secrets[i] != "" { r := ReplaceAll(r, secrets[i]); }
    }
    assert secrets[|secrets|..] == [];
  }

  // ---- vocabulary ----

  predicate BracketFree(s: string) { '[' !in s && ']' !in s }

  /** No end of the text is a beginning of the mark. */
  predicate EndsClear(t: string) {
    forall n: nat | 0 < n <= |t| :: n <= |MARK| ==> t[|t| - n..] != MARK[..n]
  }

  /** The text cannot overlap a mark. */
  predicate Clear(t: string) {
    && !Contains(MARK, t) && !Contains(t, MARK) && EndsClear(t)
    && (forall n: nat | 0 < n <= |t| :: n <= |MARK| ==> t[..n] != MARK[|MARK| - n..])
  }

  /** Some non-empty secret is still readable. */
  predicate Leaks(text: string, secrets: seq<string>) {
    exists s | s in secrets :: s != "" && Contains(text, s)
  }

  /** Some secret is part of the mark's own word. */
  predicate SpellsMark(secrets: seq<string>) {
    exists s | s in secrets :: s != "" && Contains(WORD, s)
  }

  // ---- occurrences ----

  lemma ContainsShift(text: string, n: nat, t: string, i: nat)
    requires n <= |text| && At(text[n..], t, i)
    ensures At(text, t, n + i) && Contains(text, t)
  {
    assert text[n..][i..i + |t|] == text[n + i..n + i + |t|];
    assert At(text, t, n + i);
  }

  lemma ContainsSuffix(text: string, n: nat, t: string)
    requires n <= |text| && Contains(text[n..], t)
    ensures Contains(text, t)
  {
    var i: nat :| i <= |text[n..]| && At(text[n..], t, i);
    ContainsShift(text, n, t, i);
  }

  lemma ContainsTransitive(a: string, b: string, c: string)
    requires Contains(a, b) && Contains(b, c)
    ensures Contains(a, c)
  {
    var i: nat :| i <= |a| && At(a, b, i);
    var j: nat :| j <= |b| && At(b, c, j);
    forall k | 0 <= k < |c| ensures a[i + j + k] == c[k] {
      assert a[i..i + |b|][j + k] == b[j + k] && b[j..j + |c|][k] == c[k];
    }
    assert a[i + j..i + j + |c|] == c;
    assert At(a, c, i + j);
  }

  lemma EndsClearTail(u: string)
    requires EndsClear(u) && u != ""
    ensures EndsClear(u[1..])
  {
    hide MARK;
    forall n: nat | 0 < n <= |u[1..]| && n <= |MARK| ensures u[1..][|u[1..]| - n..] != MARK[..n] {
      assert u[1..][|u[1..]| - n..] == u[|u| - n..];
    }
  }

  /** A start of what a mark begins. */
  lemma MarkFirst(u: string, rest: string)
    requires u <= MARK + rest && u != ""
    ensures !EndsClear(u) || Contains(u, MARK)
  {
    hide MARK;
    if |u| <= |MARK| {
      assert u[|u| - |u|..] == u == (MARK + rest)[..|u|] == MARK[..|u|];
    } else {
      assert u[0..|MARK|] == (MARK + rest)[..|MARK|] == MARK;
      assert At(u, MARK, 0);
    }
  }

  /** A start without a piece of a mark was copied from the input. */
  lemma {:induction false} PlainPrefix(text: string, secret: string, u: string)
    requires secret != "" && u <= ReplaceAll(text, secret) && EndsClear(u) && !Contains(u, MARK)
    ensures u <= text
    decreases |text|
  {
    hide MARK, Contains, EndsClear;
    if text != "" && u != "" {
      if secret <= text {
        MarkFirst(u, ReplaceAll(text[|secret|..], secret));
      } else {
        assert ReplaceAll(text, secret)[1..] == ReplaceAll(text[1..], secret);
        EndsClearTail(u);
        if Contains(u[1..], MARK) { ContainsSuffix(u, 1, MARK); }
        PlainPrefix(text[1..], secret, u[1..]);
        assert u == [u[0]] + u[1..] && text == [text[0]] + text[1..];
      }
    }
  }

  /** What begins inside the mark is not clear of it. */
  lemma InsideMark(rest: string, t: string, i: nat)
    requires i < |MARK| && t != "" && At(MARK + rest, t, i)
    ensures !Clear(t)
  {
    hide MARK;
    var n := |MARK| - i;
    if |t| <= n {
      assert MARK[i..i + |t|] == (MARK + rest)[i..i + |t|];
      assert At(MARK, t, i);
    } else {
      assert t[..n] == (MARK + rest)[i..i + n] == MARK[|MARK| - n..];
    }
  }

  lemma Covers(out: string, t: string, i: nat, k: nat)
    requires At(out, t, i) && i <= k < i + |t|
    ensures out[k] in t
  {
    assert out[i..i + |t|][k - i] == out[k];
  }

  lemma AtSuffix(out: string, n: nat, t: string, i: nat)
    requires n <= i && At(out, t, i)
    ensures n <= |out| && At(out[n..], t, i - n)
  {
    assert out[n..][i - n..i - n + |t|] == out[i..i + |t|];
  }

  /** An occurrence that starts at a copied character. */
  lemma CopiedOccurrence(text: string, secret: string, t: string)
    requires secret != "" && text != "" && !(secret <= text)
    requires t != "" && Clear(t) && At([text[0]] + ReplaceAll(text[1..], secret), t, 0)
    ensures Contains(text, t) && t != secret
  {
    hide MARK, EndsClear, ReplaceAll;
    var rest := ReplaceAll(text[1..], secret);
    assert t == ([text[0]] + rest)[..|t|] && t[1..] == rest[..|t| - 1];
    EndsClearTail(t);
    if Contains(t[1..], MARK) { ContainsSuffix(t, 1, MARK); }
    PlainPrefix(text[1..], secret, t[1..]);
    assert t == [text[0]] + t[1..] && text == [text[0]] + text[1..];
    assert At(text, t, 0);
  }

  /** What occurs after a replacement occurred before, and is not what was replaced. */
  lemma {:induction false} ReplaceOccurrence(text: string, secret: string, t: string, i: nat)
    requires secret != "" && t != "" && Clear(t) && At(ReplaceAll(text, secret), t, i)
    ensures Contains(text, t) && t != secret
    decreases |text|
  {
    hide MARK, Clear, Contains;
    var out := ReplaceAll(text, secret);
    assert text != "";
    if secret <= text {
      var rest := ReplaceAll(text[|secret|..], secret);
      if i < |MARK| {
        InsideMark(rest, t, i);
      } else {
        AtSuffix(out, |MARK|, t, i);
        assert out[|MARK|..] == rest;
        ReplaceOccurrence(text[|secret|..], secret, t, i - |MARK|);
        ContainsSuffix(text, |secret|, t);
      }
    } else if i == 0 {
      CopiedOccurrence(text, secret, t);
    } else {
      AtSuffix(out, 1, t, i);
      assert out[1..] == ReplaceAll(text[1..], secret);
      ReplaceOccurrence(text[1..], secret, t, i - 1);
      ContainsSuffix(text, 1, t);
    }
  }

  lemma {:induction false} ReplaceNothing(text: string, secret: string)
    requires secret != "" && !Contains(text, secret)
    ensures ReplaceAll(text, secret) == text
    decreases |text|
  {
    if text != "" {
      assert !(secret <= text) by { assert !At(text, secret, 0); }
      if Contains(text[1..], secret) {
        var j: nat :| j <= |text[1..]| && At(text[1..], secret, j);
        ContainsShift(text, 1, secret, j);
      }
      ReplaceNothing(text[1..], secret);
    }
  }

  lemma {:induction false} ReplaceLeavesMark(text: string, secret: string, i: nat)
    requires secret != "" && At(text, secret, i)
    ensures Contains(ReplaceAll(text, secret), MARK)
    decreases |text|
  {
    var out := ReplaceAll(text, secret);
    if secret <= text {
      assert out[0..|MARK|] == MARK;
      assert At(out, MARK, 0);
    } else {
      assert i > 0;
      assert text[1..][i - 1..i - 1 + |secret|] == text[i..i + |secret|];
      ReplaceLeavesMark(text[1..], secret, i - 1);
      assert out[1..] == ReplaceAll(text[1..], secret);
      var j: nat :| j <= |out[1..]| && At(out[1..], MARK, j);
      ContainsShift(out, 1, MARK, j);
    }
  }

  // ---- the whole list ----

  lemma {:induction false} KeepsAbsent(text: string, secrets: seq<string>, t: string)
    requires t != "" && Clear(t) && (!Contains(text, t) || t in secrets)
    ensures !Contains(Redacted(text, secrets), t)
    decreases |secrets|
  {
    if secrets != [] {
      var s := secrets[0];
      var next := if s == "" then text else ReplaceAll(text, s);
      assert t == s || !Contains(text, t) || t in secrets[1..];
      if s != "" && Contains(next, t) {
        var i: nat :| i <= |next| && At(next, t, i);
        ReplaceOccurrence(text, s, t, i);
      }
      KeepsAbsent(next, secrets[1..], t);
    }
  }

  /** Redaction removes every secret that cannot overlap a mark, whatever their order or
      overlap with one another. */
  lemma RedactsAll(text: string, secrets: seq<string>)
    requires forall s | s in secrets && s != "" :: Clear(s)
    ensures !Leaks(Redacted(text, secrets), secrets)
  {
    forall s | s in secrets && s != "" ensures !Contains(Redacted(text, secrets), s) {
      KeepsAbsent(text, secrets, s);
    }
  }

  /** A text without secrets is left as it is. */
  lemma {:induction false} RedactsNothing(text: string, secrets: seq<string>)
    requires !Leaks(text, secrets)
    ensures Redacted(text, secrets) == text
    decreases |secrets|
  {
    if secrets != [] {
      var s := secrets[0];
      assert s in secrets;
      if s != "" { ReplaceNothing(text, s); }
      assert forall x | x in secrets[1..] :: x in secrets;
      RedactsNothing(text, secrets[1..]);
    }
  }

  /** Redacting twice is redacting once. */
  lemma RedactIdempotent(text: string, secrets: seq<string>)
    requires forall s | s in secrets && s != "" :: Clear(s)
    ensures Redacted(Redacted(text, secrets), secrets) == Redacted(text, secrets)
  {
    RedactsAll(text, secrets);
    RedactsNothing(Redacted(text, secrets), secrets);
  }

  lemma {:induction false} MarkStays(text: string, secrets: seq<string>)
    requires Contains(text, MARK) || Leaks(text, secrets)
    ensures Contains(Redacted(text, secrets), MARK)
    decreases |secrets|
  {
    if secrets != [] {
      var s := secrets[0];
      var next := if s == "" then text else ReplaceAll(text, s);
      if s != "" && Contains(text, s) {
        var i: nat :| i <= |text| && At(text, s, i);
        ReplaceLeavesMark(text, s, i);
      } else {
        if s != "" { ReplaceNothing(text, s); }
        if Leaks(text, secrets) {
          var t :| t in secrets && t != "" && Contains(text, t);
          assert t in secrets[1..];
        }
      }
      MarkStays(next, secrets[1..]);
    }
  }

  lemma PlainIsClear(t: string)
    requires t != "" && BracketFree(t) && !Contains(WORD, t)
    ensures Clear(t)
  {
    forall i: nat | i <= |MARK| ensures !At(MARK, t, i) { InWord(t, i); }
    forall i: nat | i <= |t| ensures !At(t, MARK, i) { MarkHasBracket(t, i); }
    forall n: nat | 0 < n <= |t| && n <= |MARK|
      ensures t[|t| - n..] != MARK[..n] && t[..n] != MARK[|MARK| - n..]
    {
      assert t[|t| - n] in t && t[n - 1] in t && MARK[..n][0] == '[' && MARK[|MARK| - n..][n - 1] == ']';
      assert t[|t| - n..][0] == t[|t| - n] && t[..n][n - 1] == t[n - 1];
    }
  }

  lemma MarkHasBracket(t: string, i: nat)
    ensures At(t, MARK, i) ==> '[' in t
  {
    if At(t, MARK, i) { assert t[i..i + |MARK|][0] == t[i] == MARK[0]; }
  }

  lemma InWord(t: string, i: nat)
    requires t != "" && BracketFree(t)
    ensures At(MARK, t, i) ==> Contains(WORD, t)
  {
    if At(MARK, t, i) {
      WithinWord(t, i);
      WordWindow(t, i);
    }
  }

  lemma WithinWord(t: string, i: nat)
    requires t != "" && BracketFree(t) && At(MARK, t, i)
    ensures 1 <= i && i + |t| <= 9
  {
    Covers(MARK, t, i, i);
    Covers(MARK, t, i, i + |t| - 1);
  }

  lemma WordWindow(t: string, i: nat)
    requires At(MARK, t, i) && 1 <= i && i + |t| <= 9
    ensures Contains(WORD, t)
  {
    assert MARK[1..9] == WORD;
    assert MARK[i..i + |t|] == MARK[1..9][i - 1..i - 1 + |t|];
    assert At(WORD, t, i - 1);
  }

  /** For secrets without brackets, redaction fails on exactly the texts that
      held a secret while some secret is part of the word REDACTED. */
  lemma RedactExact(text: string, secrets: seq<string>)
    requires forall s | s in secrets && s != "" :: BracketFree(s)
    ensures Leaks(Redacted(text, secrets), secrets) <==> Leaks(text, secrets) && SpellsMark(secrets)
  {
    if !Leaks(text, secrets) {
      RedactsNothing(text, secrets);
    } else if !SpellsMark(secrets) {
      forall s | s in secrets && s != "" ensures Clear(s) { PlainIsClear(s); }
      RedactsAll(text, secrets);
    } else {
      MarkStays(text, secrets);
      var b :| b in secrets && b != "" && Contains(WORD, b);
      assert MARK[1..1 + |WORD|] == WORD;
      assert At(MARK, WORD, 1);
      ContainsTransitive(MARK, WORD, b);
      ContainsTransitive(Redacted(text, secrets), MARK, b);
    }
  }

  // ---- any single secret ----

  /** The secret begins with an end of the mark. */
  predicate StartsInMark(s: string) {
    exists n: nat | 0 < n < |s| :: n <= |MARK| && s[..n] == MARK[|MARK| - n..]
  }

  /** The secret ends with a beginning of the mark, and its front can stand before an
      occurrence that is found first. */
  predicate EndsInMark(s: string) { exists n: nat | 0 < n < |s| :: EndsAt(s, n) }

  predicate EndsAt(s: string, n: nat)
    requires n < |s|
  {
    s[n..] <= MARK && forall j: nat | j < n :: !At(s[..n] + s, s, j)
  }

  lemma CopiedOne(text: string, secret: string)
    requires secret != "" && text != "" && !At(text, secret, 0)
    ensures ReplaceAll(text, secret) == [text[0]] + ReplaceAll(text[1..], secret)
  {
    hide MARK;
  }

  lemma FrontMoves(text: string, n: nat, rest: string)
    requires 0 < n <= |text|
    ensures [text[0]] + (text[1..][..n - 1] + rest) == text[..n] + rest && text[1..][n - 1..] == text[n..]
  {
    assert text[..n] == [text[0]] + text[1..][..n - 1];
  }

  lemma NotLater(text: string, secret: string, j: nat)
    requires text != "" && !At(text, secret, j + 1)
    ensures !At(text[1..], secret, j)
  {
    if At(text[1..], secret, j) { ContainsShift(text, 1, secret, j); }
  }

  /** Up to its first occurrence the text is copied. */
  lemma {:induction false} CopiedUpTo(text: string, secret: string, n: nat)
    requires secret != "" && n <= |text| && forall j: nat | j < n :: !At(text, secret, j)
    ensures ReplaceAll(text, secret) == text[..n] + ReplaceAll(text[n..], secret)
    decreases n
  {
    hide MARK, At, ReplaceAll;
    if n == 0 {
      assert text[0..] == text;
    } else {
      CopiedOne(text, secret);
      forall j: nat | j < n - 1 ensures !At(text[1..], secret, j) { NotLater(text, secret, j); }
      CopiedUpTo(text[1..], secret, n - 1);
      FrontMoves(text, n, ReplaceAll(text[n..], secret));
    }
  }

  /** The first occurrence from position `i` on, if there is one before `n`. */
  function FirstFrom(text: string, secret: string, i: nat): (n: nat)
    requires i <= |text|
    ensures i <= n <= |text|
    ensures forall j: nat | i <= j < n :: !At(text, secret, j)
    ensures n < |text| ==> At(text, secret, n)
    decreases |text| - i
  {
    if i == |text| || At(text, secret, i) then i else FirstFrom(text, secret, i + 1)
  }

  lemma CopiedFront(text: string, s: string, n: nat, rest: string)
    requires n <= |text|
    ensures |s| <= n && s <= text[..n] + rest ==> At(text, s, 0)
  {
    if |s| <= n && s <= text[..n] + rest {
      assert s == (text[..n] + rest)[..|s|] == text[..|s|];
      assert text[0..|s|] == text[..|s|];
    }
  }

  lemma MarkInside(s: string, n: nat, rest: string)
    requires n <= |s| && s[n..] <= MARK + rest
    ensures |s| - n >= |MARK| ==> Contains(s, MARK)
    ensures |s| - n <= |MARK| ==> s[n..] <= MARK
  {
    hide MARK;
    if |s| - n >= |MARK| {
      assert s[n..n + |MARK|] == s[n..][..|MARK|] == MARK;
      assert At(s, MARK, n);
    }
    if |s| - n <= |MARK| { assert s[n..] == (MARK + rest)[..|s| - n] == MARK[..|s| - n]; }
  }

  lemma SameFront(text: string, s: string, n: nat, j: nat)
    requires n + |s| <= |text| && n <= |s| && text[..n + |s|] == s[..n] + s
    ensures At(s[..n] + s, s, j) ==> At(text, s, j)
  {
    if At(s[..n] + s, s, j) { assert text[j..j + |s|] == text[..n + |s|][j..j + |s|]; }
  }

  lemma SplitAtFirst(text: string, s: string, n: nat, rest: string)
    requires n < |s| && n + |s| <= |text| && text[n..n + |s|] == s && s <= text[..n] + rest
    ensures text[..n + |s|] == s[..n] + s && s[n..] <= rest
  {
    var out := text[..n] + rest;
    assert s[..n] == out[..n] == text[..n];
    assert text[..n + |s|] == text[..n] + text[n..n + |s|];
    assert s[n..] == out[n..][..|s| - n] && out[n..] == rest;
  }

  /** The secret at the start of what a text without it there turns into. */
  lemma AcrossMark(text: string, s: string)
    requires s != "" && !Contains(s, MARK) && !At(text, s, 0) && s <= ReplaceAll(text, s)
    ensures EndsInMark(s)
  {
    hide MARK, Contains, ReplaceAll;
    var n := FirstFrom(text, s, 0);
    CopiedUpTo(text, s, n);
    CopiedFront(text, s, n, ReplaceAll(text[n..], s));
    FoundNext(text, s, n);
    SplitAtFirst(text, s, n, ReplaceAll(text[n..], s));
    MarkInside(s, n, ReplaceAll(text[n + |s|..], s));
    forall j: nat | j < n ensures !At(s[..n] + s, s, j) { SameFront(text, s, n, j); }
    assert EndsAt(s, n);
  }

  lemma FoundNext(text: string, s: string, n: nat)
    requires s != "" && n <= |text| && |s| > n && s <= text[..n] + ReplaceAll(text[n..], s) && (n < |text| ==> At(text, s, n))
    ensures n < |text| && text[n..n + |s|] == s
    ensures ReplaceAll(text[n..], s) == MARK + ReplaceAll(text[n + |s|..], s)
  {
    hide MARK;
    if n < |text| {
      assert s <= text[n..] && text[n..][|s|..] == text[n + |s|..];
    } else {
      NothingAfter(text, s, n);
    }
  }

  lemma NothingAfter(text: string, s: string, n: nat)
    requires s != "" && n == |text|
    ensures |text[..n] + ReplaceAll(text[n..], s)| == n
  {
    assert text[n..] == "";
  }

  /** An occurrence that begins inside an inserted mark. */
  lemma FromMark(s: string, rest: string, i: nat)
    requires s != "" && i < |MARK| && At(MARK + rest, s, i)
    ensures Contains(MARK, s) || StartsInMark(s)
  {
    hide MARK;
    var n := |MARK| - i;
    if |s| <= n {
      assert MARK[i..i + |s|] == (MARK + rest)[i..i + |s|];
      assert At(MARK, s, i);
    } else {
      assert s[..n] == (MARK + rest)[i..i + n] == MARK[i..];
    }
  }

  lemma {:induction false} LeftoverShape(text: string, s: string, i: nat)
    requires s != "" && !Contains(s, MARK) && At(ReplaceAll(text, s), s, i)
    ensures Contains(MARK, s) || StartsInMark(s) || EndsInMark(s)
    decreases |text|
  {
    hide MARK, StartsInMark, EndsInMark;
    var out := ReplaceAll(text, s);
    assert text != "";
    if s <= text {
      var rest := ReplaceAll(text[|s|..], s);
      if i < |MARK| {
        FromMark(s, rest, i);
      } else {
        AtSuffix(out, |MARK|, s, i);
        assert out[|MARK|..] == rest;
        LeftoverShape(text[|s|..], s, i - |MARK|);
      }
    } else if i == 0 {
      assert !At(text, s, 0);
      AcrossMark(text, s);
    } else {
      AtSuffix(out, 1, s, i);
      assert out[1..] == ReplaceAll(text[1..], s);
      LeftoverShape(text[1..], s, i - 1);
    }
  }

  lemma Alone(text: string, s: string)
    requires s != ""
    ensures Redacted(text, [s]) == ReplaceAll(text, s)
    ensures Leaks(Redacted(text, [s]), [s]) <==> Contains(ReplaceAll(text, s), s)
  {
    assert [s][1..] == [];
    assert s in [s];
  }

  lemma MarkReveals(s: string)
    requires s != "" && Contains(MARK, s)
    ensures Contains(ReplaceAll(s, s), s)
  {
    hide MARK, Contains;
    assert s[|s|..] == "" && ReplaceAll("", s) == "";
    assert ReplaceAll(s, s) == MARK + "" == MARK;
  }

  lemma ShortTail(s: string, n: nat)
    requires 0 < n < |s|
    ensures ReplaceAll(s[n..], s) == s[n..]
  {
    hide MARK;
    ReplaceNothing(s[n..], s);
  }

  lemma MarkThenTail(s: string, n: nat)
    requires 0 < n < |s| && n <= |MARK| && s[..n] == MARK[|MARK| - n..]
    ensures Contains(MARK + s[n..], s)
  {
    hide MARK;
    var out := MARK + s[n..];
    assert out[|MARK| - n..|MARK| - n + |s|] == MARK[|MARK| - n..] + s[n..];
    assert s == s[..n] + s[n..];
    assert At(out, s, |MARK| - n);
  }

  lemma StartReveals(s: string, n: nat)
    requires 0 < n < |s| && n <= |MARK| && s[..n] == MARK[|MARK| - n..]
    ensures Contains(ReplaceAll(s + s[n..], s), s)
  {
    hide MARK, Contains;
    var text := s + s[n..];
    assert s <= text && text[|s|..] == s[n..];
    ShortTail(s, n);
    MarkThenTail(s, n);
  }

  lemma EndReveals(s: string, n: nat)
    requires 0 < n < |s| && EndsAt(s, n)
    ensures Contains(ReplaceAll(s[..n] + s, s), s)
  {
    hide MARK;
    var text := s[..n] + s;
    CopiedUpTo(text, s, n);
    assert text[n..] == s && text[..n] == s[..n] && s[|s|..] == "";
    var out := ReplaceAll(text, s);
    assert out == s[..n] + (MARK + "");
    assert out[0..|s|] == s[..n] + s[n..] == s;
    assert At(out, s, 0);
  }

  lemma SliceOfSlice(text: string, i: nat, m: nat, j: nat, k: nat)
    requires i + m <= |text| && j + k <= m
    ensures text[i..i + m][j..j + k] == text[i + j..i + j + k]
  {
    var window := text[i..i + m][j..j + k];
    forall x | 0 <= x < k ensures window[x] == text[i + j..i + j + k][x] {}
  }

  /** An occurrence of the secret before the `n`-th place would hold an earlier mark. */
  lemma EarlierMark(s: string, n: nat, j: nat)
    requires At(s, MARK, n) && j < n && At(s[..n] + s, s, j)
    ensures At(s, MARK, j)
  {
    hide MARK;
    var text := s[..n] + s;
    SliceOfSlice(text, j, |s|, n, |MARK|);
    assert text[n..n + |s|] == s;
    SliceOfSlice(text, n, |s|, j, |MARK|);
  }

  /** A text that turns into the secret itself. */
  lemma MarkedReveals(s: string, n: nat)
    requires s != "" && At(s, MARK, n) && forall j: nat | j < n :: !At(s, MARK, j)
    ensures ReplaceAll(s[..n] + s + s[n + |MARK|..], s) == s
  {
    hide MARK, ReplaceAll;
    var tail := s[n + |MARK|..];
    var text := s[..n] + s + tail;
    assert text[..n + |s|] == s[..n] + s;
    forall j: nat | j < n ensures !At(text, s, j) {
      if At(text, s, j) {
        assert (s[..n] + s)[j..j + |s|] == text[..n + |s|][j..j + |s|] == text[j..j + |s|];
        EarlierMark(s, n, j);
      }
    }
    CopiedUpTo(text, s, n);
    assert text[..n] == s[..n] && text[n..] == s + tail;
    ReplacedFirst(s, tail);
    MarkLength();
    ReplaceNothing(tail, s);
    assert s == s[..n] + (MARK + tail) by { assert s == s[..n] + s[n..n + |MARK|] + s[n + |MARK|..]; }
  }

  lemma MarkLength()
    ensures |MARK| > 0
  {}

  lemma ReplacedFirst(s: string, rest: string)
    requires s != ""
    ensures ReplaceAll(s + rest, s) == MARK + ReplaceAll(rest, s)
  {
    hide MARK;
    assert s <= s + rest && (s + rest)[|s|..] == rest;
  }

  lemma FirstOccurrence(text: string, t: string) returns (n: nat)
    requires t != "" && Contains(text, t)
    ensures n <= |text| && At(text, t, n) && forall j: nat | j < n :: !At(text, t, j)
  {
    var i: nat :| i <= |text| && At(text, t, i);
    n := FirstFrom(text, t, 0);
  }

  lemma ContainsItself(s: string)
    ensures Contains(s, s)
  {
    assert s[0..0 + |s|] == s;
    assert At(s, s, 0);
  }

  /** Any single secret, with brackets or without: it is safe in every text exactly when it does
      not contain the mark, is no part of it, does not begin with an end of it, and does not end
      with a beginning of it in a way that can be reached. */
  lemma SingleSecretExact(s: string)
    requires s != ""
    ensures (forall text :: !Leaks(Redacted(text, [s]), [s])) <==>
              !Contains(s, MARK) && !Contains(MARK, s) && !StartsInMark(s) && !EndsInMark(s)
  {
    hide MARK, Contains, Redacted, ReplaceAll, Leaks, EndsAt;
    MarkLength();
    if Contains(s, MARK) {
      var n := FirstOccurrence(s, MARK);
      MarkedReveals(s, n);
      ContainsItself(s);
      Alone(s[..n] + s + s[n + |MARK|..], s);
    } else if Contains(MARK, s) {
      MarkReveals(s);
      Alone(s, s);
    } else if StartsInMark(s) {
      var n: nat :| 0 < n < |s| && n <= |MARK| && s[..n] == MARK[|MARK| - n..];
      StartReveals(s, n);
      Alone(s + s[n..], s);
    } else if EndsInMark(s) {
      var n: nat :| 0 < n < |s| && EndsAt(s, n);
      EndReveals(s, n);
      Alone(s[..n] + s, s);
    } else {
      forall text ensures !Leaks(Redacted(text, [s]), [s]) { NothingLeft(text, s); }
    }
  }

  lemma NothingLeft(text: string, s: string)
    requires s != "" && !Contains(s, MARK) && !Contains(MARK, s) && !StartsInMark(s) && !EndsInMark(s)
    ensures !Leaks(Redacted(text, [s]), [s])
  {
    hide MARK, Redacted, ReplaceAll, StartsInMark, EndsInMark;
    Alone(text, s);
    if Contains(ReplaceAll(text, s), s) {
      var i: nat :| i <= |ReplaceAll(text, s)| && At(ReplaceAll(text, s), s, i);
      LeftoverShape(text, s, i);
    }
  }

  /** Brackets matter: the secret `a[` survives in `aa[[`, though it is no part of the mark's word. */
  lemma BracketSecretSurvives()
    ensures !SpellsMark(["a["]) && Leaks(Redacted("aa[[", ["a["]), ["a["])
  {
    forall i: nat ensures !At(WORD, "a[", i) {
      if i + 2 <= |WORD| { assert WORD[i..i + 2][0] == WORD[i] != "a["[0]; }
    }
    var t := "aa[[";
    assert t[1..] == "a[[" && t[1..][2..] == "[" && "["[1..] == "";
    assert ReplaceAll("", "a[") == "";
    assert ReplaceAll("[", "a[") == "[" + "" == "[";
    assert ReplaceAll("a[[", "a[") == MARK + "[";
    assert ReplaceAll(t, "a[") == "a" + (MARK + "[");
    var out := "a" + (MARK + "[");
    assert out[0..2] == "a[";
    assert At(out, "a[", 0);
    assert ["a["][1..] == [];
    assert Redacted(t, ["a["]) == out;
    assert "a[" in ["a["];
  }
}
