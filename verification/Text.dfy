/** String facts shared by every component: the byte-wise order that
    sort.Strings uses, substring search, and splitting on a separator. */
module Text {

  // ---- order ----

  /** Go's `<` on strings. */
  predicate Less(a: string, b: string) {
    if b == "" then false
    else if a == "" then true
    else if a[0] != b[0] then a[0] < b[0]
    else Less(a[1..], b[1..])
  }

  lemma {:induction false} LessIrreflexive(a: string)
    ensures !Less(a, a)
  {
    if a != "" { LessIrreflexive(a[1..]); }
  }

  lemma {:induction false} LessTotal(a: string, b: string)
    ensures a == b || Less(a, b) || Less(b, a)
  {
    if a != "" && b != "" && a[0] == b[0] {
      LessTotal(a[1..], b[1..]);
      assert a == [a[0]] + a[1..] && b == [b[0]] + b[1..];
    }
  }

  lemma {:induction false} LessTransitive(a: string, b: string, c: string)
    requires Less(a, b) && Less(b, c)
    ensures Less(a, c)
  {
    if a != "" && b != "" && c != "" && a[0] == b[0] == c[0] {
      LessTransitive(a[1..], b[1..], c[1..]);
    }
  }

  ghost predicate StrictlySorted(xs: seq<string>) {
    forall i, j | 0 <= i < j < |xs| :: Less(xs[i], xs[j])
  }

  predicate IsMin(m: string, s: set<string>) {
    m in s && forall x | x in s :: x == m || Less(m, x)
  }

  lemma {:induction false} MinExists(s: set<string>)
    requires s != {}
    ensures exists m :: IsMin(m, s)
  {
    var x :| x in s;
    if s == {x} {
      assert IsMin(x, s);
    } else {
      assert s == (s - {x}) + {x};
      MinExists(s - {x});
      var n :| IsMin(n, s - {x});
      LessTotal(x, n);
      var m := if Less(x, n) then x else n;
      forall y | y in s
        ensures y == m || Less(m, y)
      {
        if y != x && Less(x, n) && y != n { LessTransitive(x, n, y); }
      }
      assert IsMin(m, s);
    }
  }

  lemma MinUnique(a: string, b: string, s: set<string>)
    requires IsMin(a, s) && IsMin(b, s)
    ensures a == b
  {
    if a != b {
      LessTransitive(a, b, a);
      LessIrreflexive(a);
    }
  }

  lemma MinUniqueAll(s: set<string>)
    ensures forall a, b | IsMin(a, s) && IsMin(b, s) :: a == b
  {
    forall a, b | IsMin(a, s) && IsMin(b, s) ensures a == b { MinUnique(a, b, s); }
  }

  /** The keys of a Go map after `sort.Strings`. */
  function Sorted(s: set<string>): (r: seq<string>)
    ensures |r| == |s|
    ensures forall x :: x in r <==> x in s
    ensures StrictlySorted(r)
    decreases |s|
  {
    if s == {} then []
    else
      MinExists(s);
      MinUniqueAll(s);
      var m :| m in s && IsMin(m, s);
      var rest := Sorted(s - {m});
      assert forall i | 0 <= i < |rest| :: rest[i] in rest;
      [m] + rest
  }

  /** Sorting leaves no choice: a strictly increasing sequence is determined
      by the set of its members. */
  lemma {:induction false} SortedUnique(xs: seq<string>, ys: seq<string>)
    requires StrictlySorted(xs) && StrictlySorted(ys)
    requires forall x :: x in xs <==> x in ys
    ensures xs == ys
    decreases |xs|
  {
    assert ys != [] ==> ys[0] in ys;
    if xs != [] {
      assert xs[0] in ys && ys != [] && ys[0] in xs;
      if xs[0] != ys[0] {
        LessTransitive(xs[0], ys[0], xs[0]);
        LessIrreflexive(xs[0]);
      }
      forall x
        ensures x in xs[1..] <==> x in ys[1..]
      {
        LessIrreflexive(xs[0]);
        if x in xs[1..] { assert x in xs; }
        if x in ys[1..] { assert x in ys; }
      }
      SortedUnique(xs[1..], ys[1..]);
    }
  }

  // ---- length ----

  /** len(string(r)): the UTF-8 width of one rune. */
  function RuneLen(c: char): nat {
    if c < '\U{80}' then 1 else if c < '\U{800}' then 2 else if c < '\U{10000}' then 3 else 4
  }

  /** Go's len(s) of a string of runes. */
  function ByteLen(s: string): nat {
    if s == "" then 0 else RuneLen(s[0]) + ByteLen(s[1..])
  }

  /** `sub` occurs in `text` at position `i`. */
  predicate At(text: string, sub: string, i: nat) {
    i + |sub| <= |text| && text[i..i + |sub|] == sub
  }

  /** strings.Contains(text, sub). */
  predicate Contains(text: string, sub: string) {
    exists i: nat | i <= |text| :: At(text, sub, i)
  }

  // ---- what they come to ----

  /** The strings are the same before the `n`-th character. */
  predicate SameBefore(a: string, b: string, n: nat) { n <= |a| && n <= |b| && a[..n] == b[..n] }

  ghost predicate LessAt(a: string, b: string, n: nat) {
    SameBefore(a, b, n) && n < |b| && (n == |a| || a[n] < b[n])
  }

  lemma SameFirst(a: string, b: string, n: nat)
    requires n > 0 && SameBefore(a, b, n)
    ensures a[0] == b[0]
  {
    assert a[..n][0] == a[0] && b[..n][0] == b[0];
  }

  /** One string is less than another if, where they part, it has ended or has the smaller character. */
  lemma {:induction false} LessExact(a: string, b: string)
    ensures Less(a, b) <==> exists n: nat :: LessAt(a, b, n)
  {
    if a != "" && b != "" && a[0] == b[0] {
      LessExact(a[1..], b[1..]);
      if n: nat :| LessAt(a[1..], b[1..], n) {
        assert a[..n + 1] == [a[0]] + a[1..][..n] && b[..n + 1] == [b[0]] + b[1..][..n];
        assert LessAt(a, b, n + 1);
      }
      if n: nat :| LessAt(a, b, n) {
        assert n > 0;
        assert a[1..][..n - 1] == a[..n][1..] && b[1..][..n - 1] == b[..n][1..];
        assert LessAt(a[1..], b[1..], n - 1);
      }
    } else if Less(a, b) {
      assert LessAt(a, b, 0);
    } else {
      forall n: nat ensures !LessAt(a, b, n) {
        if n > 0 && SameBefore(a, b, n) { SameFirst(a, b, n); }
      }
    }
  }

  /** The length in bytes adds up, and is one to four for a character, by its code. */
  lemma {:induction false} ByteLenBoth(a: string, b: string, c: char)
    ensures ByteLen(a + b) == ByteLen(a) + ByteLen(b)
    ensures var n := c as int;
            ByteLen([c]) == if n <= 127 then 1 else if n <= 2047 then 2 else if n <= 65535 then 3 else 4
    decreases |a|
  {
    assert [c][1..] == "";
    if a == "" {
      assert a + b == b;
    } else {
      assert (a + b)[1..] == a[1..] + b;
      ByteLenBoth(a[1..], b, c);
    }
  }
}
