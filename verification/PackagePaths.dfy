/** Relative names inside archives: what path.Clean makes of them, and the two
    guards built on it (safePackagePath and safeName). */
module PackagePaths {
  import opened Text
  import opened Paths

  const MAX_NAME := 4096

  /** Components joined by slashes, with none in front. */
  function Joined(cs: seq<string>): string
    requires cs != []
  {
    Raw(cs)[1..]
  }

  /** A relative path without empty, `.` or `..` components. */
  ghost predicate Relative(p: string) { exists cs: seq<string> :: Spells(p, cs) }

  ghost predicate Spells(p: string, cs: seq<string>) { cs != [] && ValidParts(cs) && p == Joined(cs) }

  predicate Dangerous(name: string) { name == "" || ByteLen(name) > MAX_NAME || '\0' in name || ':' in name }

  function Slashed(name: string): string {
    seq(|name|, i requires 0 <= i < |name| => if name[i] == '\\' then '/' else name[i])
  }

  datatype Guarded = Safe(path: string) | Unsafe

  /** safePackagePath. */
  function SafePackagePath(given: string): Guarded {
    var name := Slashed(given);
    if Dangerous(name) || "/" <= name then Unsafe
    else
      var clean := Clean(name);
      if clean == "." || clean == ".." || "../" <= clean then Unsafe else Safe(clean)
  }

  /** safeName. */
  predicate SafeName(name: string) {
    !Dangerous(name) && '\\' !in name && Clean(name) == name
    && name != "." && name != ".." && !("../" <= name) && !("/" <= name)
  }

  // ---- Clean on relative paths ----

  /** What the stack holds on a relative path: `..` at the bottom only, then valid components. */
  ghost predicate Stack(cs: seq<string>) { forall i: nat | i < |cs| :: Stacked(cs, i) }

  ghost predicate Stacked(cs: seq<string>, i: nat)
    requires i < |cs|
  {
    (cs[i] == ".." && (i > 0 ==> cs[i - 1] == "..")) || ValidPart(cs[i])
  }

  lemma {:induction false} ResolveStack(stack: seq<string>, parts: seq<string>)
    requires Stack(stack) && forall c | c in parts :: '/' !in c
    ensures Stack(Resolve(stack, parts, false))
    decreases |parts|
  {
    if parts != [] {
      var c := parts[0];
      assert c in parts && forall d | d in parts[1..] :: d in parts;
      var next :=
        if c == "" || c == "." then stack
        else if c != ".." then stack + [c]
        else if stack != [] && stack[|stack| - 1] != ".." then stack[..|stack| - 1]
        else stack + [c];
      forall i: nat | i < |next| ensures Stacked(next, i) {
        if i < |stack| { assert Stacked(stack, i); }
        if stack != [] { assert Stacked(stack, |stack| - 1); }
      }
      ResolveStack(next, parts[1..]);
    }
  }

  lemma {:induction false} StackOfValid(cs: seq<string>, i: nat)
    requires Stack(cs) && i < |cs| && cs[0] != ".."
    ensures ValidPart(cs[i])
    decreases i
  {
    assert Stacked(cs, i);
    if i > 0 { StackOfValid(cs, i - 1); }
  }

  lemma {:induction false} RawFirst(cs: seq<string>)
    requires cs != []
    ensures "/" + cs[0] <= Raw(cs)
    ensures |cs| > 1 ==> "/" + cs[0] + "/" <= Raw(cs)
    ensures |cs| == 1 ==> Raw(cs) == "/" + cs[0]
    decreases |cs|
  {
    var init := cs[..|cs| - 1];
    if |cs| == 1 {
      assert init == [] && Raw(init) == "";
    } else {
      RawFirst(init);
      assert init[0] == cs[0];
      if |init| == 1 { assert Raw(cs) == "/" + cs[0] + "/" + cs[1]; }
    }
  }

  lemma LeadingDots(cs: seq<string>)
    requires cs != [] && cs[0] == ".."
    ensures Raw(cs) != "" && (Raw(cs)[1..] == ".." || "../" <= Raw(cs)[1..])
  {
    RawFirst(cs);
  }

  /** A cleaned relative path that does not leave its root is relative in the strict sense. */
  lemma CleanIsRelative(p: string)
    requires p != "" && p[0] != '/' && Clean(p) != "." && Clean(p) != ".." && !("../" <= Clean(p))
    ensures Relative(Clean(p))
  {
    SplitHasNoSlash(p);
    ResolveStack([], Split(p));
    var cs := Resolve([], Split(p), false);
    RawFirst(cs);
    if cs[0] == ".." { LeadingDots(cs); }
    forall c | c in cs ensures ValidPart(c) {
      var i :| 0 <= i < |cs| && cs[i] == c;
      StackOfValid(cs, i);
    }
    assert Spells(Clean(p), cs);
  }

  lemma SplitJoined(cs: seq<string>)
    requires cs != [] && ValidParts(cs)
    ensures Split(Joined(cs)) == cs
  {
    PartsRender(cs);
    RawFirst(cs);
    assert Raw(cs) == "/" + Joined(cs);
    assert Split(Raw(cs)) == [""] + Split(Joined(cs));
  }

  lemma JoinedStart(cs: seq<string>)
    requires cs != [] && ValidParts(cs)
    ensures cs[0] <= Joined(cs) && (if |cs| > 1 then cs[0] + "/" <= Joined(cs) else cs[0] == Joined(cs))
    ensures Joined(cs) != "" && Joined(cs)[0] != '/'
  {
    RawFirst(cs);
    assert ValidPart(cs[0]) && cs[0][0] in cs[0];
  }

  lemma NotDots(cs: seq<string>)
    requires cs != [] && ValidParts(cs)
    ensures Joined(cs) != "." && Joined(cs) != ".." && !("../" <= Joined(cs))
  {
    JoinedStart(cs);
    assert ValidPart(cs[0]);
    hide Joined;
    NoDotDotFirst(cs[0], Joined(cs), |cs| > 1);
    if |cs| > 1 { assert '/' in cs[0] + "/" && (cs[0] + "/")[|cs[0]|] == '/' == Joined(cs)[|cs[0]|]; }
  }

  lemma CleanJoined(cs: seq<string>)
    requires cs != [] && ValidParts(cs)
    ensures Clean(Joined(cs)) == Joined(cs)
  {
    JoinedStart(cs);
    SplitJoined(cs);
    ResolveValid([], cs, false);
    assert [] + cs == cs;
  }

  /** Clean leaves a relative path alone, and such a path escapes nothing. */
  lemma RelativeIsClean(p: string)
    requires Relative(p)
    ensures Clean(p) == p && p != "" && p[0] != '/' && p != "." && p != ".." && !("../" <= p)
  {
    var cs :| Spells(p, cs);
    JoinedStart(cs);
    CleanJoined(cs);
    NotDots(cs);
  }

  lemma NoDotDotFirst(c: string, p: string, more: bool)
    requires ValidPart(c) && c <= p && (if more then c + "/" <= p else c == p)
    ensures !("../" <= p)
  {
    if |c| >= 3 {
      assert c[2] in c && p[2] == c[2];
    } else if |c| == 2 {
      assert c == [c[0], c[1]] && ".." == ['.', '.'];
    } else {
      assert c == [c[0]] && "." == ['.'];
    }
  }

  // ---- cleaning adds nothing ----

  lemma {:induction false} ByteLenConcat(a: string, b: string)
    ensures ByteLen(a + b) == ByteLen(a) + ByteLen(b)
  {
    if a == "" {
      assert a + b == b;
    } else {
      assert (a + b)[1..] == a[1..] + b;
      ByteLenConcat(a[1..], b);
    }
  }

  /** Bytes of the components, each with one slash. */
  function Weight(cs: seq<string>): nat {
    if cs == [] then 0 else Weight(cs[..|cs| - 1]) + 1 + ByteLen(cs[|cs| - 1])
  }

  lemma {:induction false} WeightFirst(c: string, cs: seq<string>)
    ensures Weight([c] + cs) == ByteLen(c) + 1 + Weight(cs)
    decreases |cs|
  {
    var all := [c] + cs;
    if cs == [] {
      assert all[..0] == [];
    } else {
      assert all[..|all| - 1] == [c] + cs[..|cs| - 1];
      WeightFirst(c, cs[..|cs| - 1]);
    }
  }

  lemma {:induction false} RawWeight(cs: seq<string>)
    ensures ByteLen(Raw(cs)) == Weight(cs)
  {
    if cs != [] {
      RawWeight(cs[..|cs| - 1]);
      ByteLenConcat(Raw(cs[..|cs| - 1]) + "/", cs[|cs| - 1]);
      ByteLenConcat(Raw(cs[..|cs| - 1]), "/");
    }
  }

  lemma {:induction false} SplitWeight(s: string)
    ensures Weight(Split(s)) == ByteLen(s) + 1
  {
    if s == "" {
      WeightFirst("", []);
      assert [""] + [] == [""];
    } else {
      var rest := Split(s[1..]);
      SplitWeight(s[1..]);
      if s[0] == '/' {
        WeightFirst("", rest);
      } else {
        WeightFirst(rest[0], rest[1..]);
        assert rest == [rest[0]] + rest[1..];
        WeightFirst([s[0]] + rest[0], rest[1..]);
        assert ([s[0]] + rest[0])[1..] == rest[0];
      }
    }
  }

  lemma {:induction false} ResolveWeight(stack: seq<string>, parts: seq<string>)
    ensures Weight(Resolve(stack, parts, false)) <= Weight(stack) + Weight(parts)
    decreases |parts|
  {
    if parts != [] {
      var c := parts[0];
      WeightFirst(c, parts[1..]);
      assert parts == [c] + parts[1..];
      var next :=
        if c == "" || c == "." then stack
        else if c != ".." then stack + [c]
        else if stack != [] && stack[|stack| - 1] != ".." then stack[..|stack| - 1]
        else stack + [c];
      assert (stack + [c])[..|stack|] == stack;
      ResolveWeight(next, parts[1..]);
    }
  }

  lemma {:induction false} RawSlash(cs: seq<string>)
    requires cs != []
    ensures Raw(cs) != "" && Raw(cs)[0] == '/' && ByteLen(Raw(cs)) == 1 + ByteLen(Raw(cs)[1..])
  {
    RawFirst(cs);
    assert Raw(cs)[0] == ("/" + cs[0])[0];
  }

  lemma CleanShorter(p: string)
    requires p != "" && p[0] != '/'
    ensures ByteLen(Clean(p)) <= ByteLen(p)
  {
    var cs := Resolve([], Split(p), false);
    ResolveWeight([], Split(p));
    SplitWeight(p);
    RawWeight(cs);
    if cs != [] { RawSlash(cs); }
  }

  /** Every character of the components satisfies what every character of the path does. */
  ghost predicate Spelled(cs: seq<string>, chars: string) { forall c, x | c in cs && x in c :: x in chars || x == '.' || x == '/' }

  lemma {:induction false} SplitSpelled(s: string)
    ensures Spelled(Split(s), s)
  {
    if s != "" {
      SplitSpelled(s[1..]);
      assert forall x | x in s[1..] :: x in s;
      var rest := Split(s[1..]);
      assert rest[0] in rest && forall c | c in rest[1..] :: c in rest;
    }
  }

  lemma {:induction false} ResolveSpelled(stack: seq<string>, parts: seq<string>, chars: string)
    requires Spelled(stack, chars) && Spelled(parts, chars)
    ensures Spelled(Resolve(stack, parts, false), chars)
    decreases |parts|
  {
    if parts != [] {
      var c := parts[0];
      assert c in parts && forall d | d in parts[1..] :: d in parts;
      var next :=
        if c == "" || c == "." then stack
        else if c != ".." then stack + [c]
        else if stack != [] && stack[|stack| - 1] != ".." then stack[..|stack| - 1]
        else stack + [c];
      assert forall d | d in next :: d in stack || d == c;
      ResolveSpelled(next, parts[1..], chars);
    }
  }

  lemma {:induction false} RawSpelled(cs: seq<string>, chars: string, x: char)
    requires Spelled(cs, chars) && x in Raw(cs)
    ensures x in chars || x == '.' || x == '/'
  {
    if cs != [] {
      var init := cs[..|cs| - 1];
      assert cs[|cs| - 1] in cs && forall c | c in init :: c in cs;
      if x in Raw(init) { RawSpelled(init, chars, x); }
    }
  }

  lemma CleanSpelled(p: string, x: char)
    requires p != "" && p[0] != '/' && x in Clean(p)
    ensures x in p || x == '.' || x == '/'
  {
    var cs := Resolve([], Split(p), false);
    SplitSpelled(p);
    ResolveSpelled([], Split(p), p);
    if cs != [] {
      assert x in Raw(cs);
      RawSpelled(cs, p, x);
    }
  }

  // ---- the guards ----

  /** An accepted package path is relative, and accepted again as it is. */
  lemma SafePathStable(name: string)
    requires SafePackagePath(name).Safe?
    ensures var p := SafePackagePath(name).path; Relative(p) && SafeName(p) && SafePackagePath(p) == Safe(p)
  {
    hide Clean, ByteLen, Relative;
    var n := Slashed(name);
    var p := Clean(n);
    CleanIsRelative(n);
    RelativeIsClean(p);
    CleanShorter(n);
    forall x | x in p ensures x != '\0' && x != ':' && x != '\\' { CleanSpelled(n, x); }
    assert forall i | 0 <= i < |p| :: p[i] in p;
    assert Slashed(p) == p;
  }

  /** A package path is accepted unchanged exactly when it is a safe name. */
  lemma SafePathFixed(name: string)
    ensures SafePackagePath(name) == Safe(name) <==> SafeName(name)
  {
    hide Clean, ByteLen;
    if SafePackagePath(name) == Safe(name) { SafePathStable(name); }
    if SafeName(name) { assert Slashed(name) == name; }
  }

  /** Exactly the short relative names without NUL, colon and backslash are safe. */
  lemma SafeNameExact(name: string)
    ensures SafeName(name) <==> !Dangerous(name) && '\\' !in name && Relative(name)
  {
    if SafeName(name) { CleanIsRelative(name); }
    if Relative(name) { RelativeIsClean(name); }
  }

  /** A single component is a relative path. */
  lemma OneComponent(c: string)
    requires ValidPart(c)
    ensures Relative(c)
  {
    RawFirst([c]);
    assert Spells(c, [c]);
  }
}
