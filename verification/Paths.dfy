/** Virtual paths: Go's `path.Clean`, `path.Join`, `path.Dir` and `path.Base`
    as their package documents them, and NormalizePath on top of them. */
module Paths {

  datatype PathResult = Ok(path: string) | EmptyPath | Escapes

  // ---- library functions ----

  /** strings.Split(s, "/"). */
  function Split(s: string): (r: seq<string>)
    ensures |r| > 0
  {
    if s == "" then [""]
    else
      var rest := Split(s[1..]);
      if s[0] == '/' then [""] + rest else [[s[0]] + rest[0]] + rest[1..]
  }

  /** Each component preceded by a slash. */
  function Raw(cs: seq<string>): string {
    if cs == [] then "" else Raw(cs[..|cs| - 1]) + "/" + cs[|cs| - 1]
  }

  /** The absolute path with these components. */
  function Render(cs: seq<string>): string {
    if cs == [] then "/" else Raw(cs)
  }

  /** The lexical stack machine behind `path.Clean`. */
  function Resolve(stack: seq<string>, parts: seq<string>, rooted: bool): seq<string>
    decreases |parts|
  {
    if parts == [] then stack
    else
      var c := parts[0];
      var next :=
        if c == "" || c == "." then stack
        else if c != ".." then stack + [c]
        else if stack != [] && stack[|stack| - 1] != ".." then stack[..|stack| - 1]
        else if rooted then stack
        else stack + [c];
      Resolve(next, parts[1..], rooted)
  }

  function Clean(s: string): string {
    if s == "" then "."
    else if s[0] == '/' then Render(Resolve([], Split(s), true))
    else
      var cs := Resolve([], Split(s), false);
      if cs == [] then "." else Raw(cs)[1..]
  }

  function JoinPath(a: string, b: string): string {
    if a == "" && b == "" then ""
    else if a == "" then Clean(b)
    else if b == "" then Clean(a)
    else Clean(a + "/" + b)
  }

  function LastSlash(s: string): (i: int)
    ensures -1 <= i < |s|
    ensures i >= 0 ==> s[i] == '/'
    ensures forall k | i < k < |s| :: s[k] != '/'
  {
    if s == "" then -1
    else if s[|s| - 1] == '/' then |s| - 1
    else LastSlash(s[..|s| - 1])
  }

  function Dir(s: string): string { Clean(s[..LastSlash(s) + 1]) }

  function TrimSlashes(s: string): string {
    if s != "" && s[|s| - 1] == '/' then TrimSlashes(s[..|s| - 1]) else s
  }

  function Base(s: string): string {
    if s == "" then "."
    else
      var t := TrimSlashes(s);
      var b := t[LastSlash(t) + 1..];
      if b == "" then "/" else b
  }

  // ---- the repository's function ----

  function NormalizePath(input: string, cwd: string): PathResult {
    if input == "" then EmptyPath
    else
      var joined := if input[0] == '/' then input else JoinPath(cwd, input);
      var clean := Clean(joined);
      var rooted := if clean == "." then "/" else clean;
      if !("/" <= rooted) || rooted == "/.." || "/../" <= rooted then Escapes else Ok(rooted)
  }

  // ---- canonical paths ----

  predicate ValidPart(c: string) { c != "" && c != "." && c != ".." && '/' !in c }

  predicate ValidParts(cs: seq<string>) { forall c | c in cs :: ValidPart(c) }

  function NonEmpty(parts: seq<string>): seq<string> {
    if parts == [] then []
    else (if parts[0] == "" then [] else [parts[0]]) + NonEmpty(parts[1..])
  }

  function Parts(s: string): seq<string> { NonEmpty(Split(s)) }

  /** Absolute, with no empty, `.` or `..` component and no trailing slash. */
  predicate Canonical(s: string) { ValidParts(Parts(s)) && s == Render(Parts(s)) }

  /** `k` is `p` or lies below it: the test `name == p || HasPrefix(name, TrimSuffix(p, "/")+"/")`. */
  predicate Under(p: string, k: string) {
    k == p || (if p != "" && p[|p| - 1] == '/' then p else p + "/") <= k
  }

  // ---- lemmas ----

  lemma {:induction false} SplitConcat(a: string, b: string)
    ensures Split(a + "/" + b) == Split(a) + Split(b)
  {
    if a == "" {
      assert "" + "/" + b == ['/'] + b;
      assert (['/'] + b)[1..] == b;
    } else {
      assert (a + "/" + b)[1..] == a[1..] + "/" + b;
      SplitConcat(a[1..], b);
    }
  }

  lemma {:induction false} SplitPlain(c: string)
    requires '/' !in c
    ensures Split(c) == [c]
  {
    if c != "" { SplitPlain(c[1..]); assert c == [c[0]] + c[1..]; }
  }

  lemma {:induction false} SplitHasNoSlash(s: string)
    ensures forall c | c in Split(s) :: '/' !in c
  {
    if s != "" { SplitHasNoSlash(s[1..]); }
  }

  lemma {:induction false} SplitRaw(cs: seq<string>)
    requires forall c | c in cs :: '/' !in c
    ensures Split(Raw(cs)) == [""] + cs
  {
    if cs != [] {
      var init, last := cs[..|cs| - 1], cs[|cs| - 1];
      SplitRaw(init);
      SplitConcat(Raw(init), last);
      SplitPlain(last);
      assert cs == init + [last];
    }
  }

  lemma {:induction false} NonEmptyValid(cs: seq<string>)
    requires ValidParts(cs)
    ensures NonEmpty(cs) == cs
  {
    if cs != [] {
      assert cs[0] in cs;
      assert forall c | c in cs[1..] :: c in cs;
      NonEmptyValid(cs[1..]);
    }
  }

  /** The components can be read back from the rendering. */
  lemma PartsRender(cs: seq<string>)
    requires ValidParts(cs)
    ensures Parts(Render(cs)) == cs && Canonical(Render(cs))
    ensures cs != [] ==> Split(Render(cs)) == [""] + cs
  {
    if cs == [] {
      assert Split("") == [""];
      assert "/"[1..] == "";
      assert Split("/") == ["", ""];
      assert ["", ""][1..] == [""] && [""][1..] == [];
      assert Parts("/") == NonEmpty(["", ""]) == [];
    } else {
      assert forall c | c in cs :: ValidPart(c);
      SplitRaw(cs);
      assert ([""] + cs)[1..] == cs;
      NonEmptyValid(cs);
    }
  }

  lemma {:induction false} RawConcat(a: seq<string>, b: seq<string>)
    ensures Raw(a + b) == Raw(a) + Raw(b)
  {
    if b == [] {
      assert a + b == a;
    } else {
      assert (a + b)[..|a + b| - 1] == a + b[..|b| - 1];
      RawConcat(a, b[..|b| - 1]);
    }
  }

  lemma {:induction false} ResolveAppend(stack: seq<string>, a: seq<string>, b: seq<string>, rooted: bool)
    ensures Resolve(stack, a + b, rooted) == Resolve(Resolve(stack, a, rooted), b, rooted)
    decreases |a|
  {
    if a == [] {
      assert a + b == b;
    } else {
      assert (a + b)[0] == a[0] && (a + b)[1..] == a[1..] + b;
      var c := a[0];
      var next :=
        if c == "" || c == "." then stack
        else if c != ".." then stack + [c]
        else if stack != [] && stack[|stack| - 1] != ".." then stack[..|stack| - 1]
        else if rooted then stack
        else stack + [c];
      ResolveAppend(next, a[1..], b, rooted);
    }
  }

  /** Valid components are pushed as they are. */
  lemma {:induction false} ResolveValid(stack: seq<string>, cs: seq<string>, rooted: bool)
    requires ValidParts(cs)
    ensures Resolve(stack, cs, rooted) == stack + cs
    decreases |cs|
  {
    if cs == [] {
      assert stack + cs == stack;
    } else {
      assert ValidPart(cs[0]);
      assert forall c | c in cs[1..] :: c in cs;
      ResolveValid(stack + [cs[0]], cs[1..], rooted);
      assert stack + [cs[0]] + cs[1..] == stack + cs;
    }
  }

  lemma {:induction false} ResolveStaysValid(stack: seq<string>, parts: seq<string>)
    requires ValidParts(stack)
    requires forall c | c in parts :: '/' !in c
    ensures ValidParts(Resolve(stack, parts, true))
    decreases |parts|
  {
    if parts != [] {
      var c := parts[0];
      assert c in parts;
      var next :=
        if c == "" || c == "." then stack
        else if c != ".." then stack + [c]
        else if stack != [] && stack[|stack| - 1] != ".." then stack[..|stack| - 1]
        else stack;
      assert ValidParts(next);
      ResolveStaysValid(next, parts[1..]);
    }
  }

  /** Leading and trailing slashes and everything a canonical path renders
      resolve to its own components. */
  lemma ResolveCanonical(p: string, stack: seq<string>)
    requires Canonical(p)
    ensures Resolve(stack, Split(p), true) == stack + Parts(p)
  {
    var cs := Parts(p);
    PartsRender(cs);
    if cs == [] {
      assert Split("") == [""];
      assert "/"[1..] == "";
      assert Split("/") == ["", ""];
      assert ["", ""][1..] == [""] && [""][1..] == [];
      assert Resolve(stack, [""], true) == Resolve(stack, [], true);
      assert stack + cs == stack;
    } else {
      assert ([""] + cs)[1..] == cs;
      ResolveValid(stack, cs, true);
    }
  }

  lemma CleanCanonical(p: string)
    requires Canonical(p)
    ensures Clean(p) == p && p != "" && p[0] == '/'
  {
    var cs := Parts(p);
    AbsoluteRender(cs);
    ResolveCanonical(p, []);
    assert [] + cs == cs;
  }

  lemma {:induction false} AbsoluteRender(cs: seq<string>)
    ensures Render(cs) != "" && Render(cs)[0] == '/'
  {
    if |cs| > 1 {
      AbsoluteRender(cs[..|cs| - 1]);
    } else if |cs| == 1 {
      assert Raw(cs[..0]) == "";
    }
  }

  /** `Canonical` excludes exactly the results NormalizePath refuses. */
  lemma CanonicalDoesNotEscape(p: string)
    requires Canonical(p)
    ensures p != "/.." && !("/../" <= p)
  {
    var cs := Parts(p);
    PartsRender(cs);
    assert cs != [] ==> ValidPart(cs[0]);
    assert cs == [] ==> |p| == 1;
    SplitPlain("..");
    SplitConcat("", "..");
    assert "" + "/" + ".." == "/..";
    assert Split("") == [""];
    assert Split("/..") == ["", ".."];
    assert cs != [] ==> ([""] + cs)[1] == cs[0];
    if "/../" <= p {
      var rest := p[4..];
      assert p == "/.." + "/" + rest;
      SplitConcat("/..", rest);
      assert false;
    }
  }

  /** NormalizePath never fails from a canonical working directory: the answer
      is canonical and is the input's components folded over the directory's. */
  lemma NormalizeMeaning(input: string, cwd: string)
    requires input != "" && Canonical(cwd)
    ensures NormalizePath(input, cwd).Ok?
    ensures Canonical(NormalizePath(input, cwd).path)
    ensures Parts(NormalizePath(input, cwd).path)
         == Resolve(if input[0] == '/' then [] else Parts(cwd), Split(input), true)
  {
    var start: seq<string> := if input[0] == '/' then [] else Parts(cwd);
    var cs := Resolve(start, Split(input), true);
    SplitHasNoSlash(input);
    ResolveStaysValid(start, Split(input));
    PartsRender(cs);
    var p := Render(cs);
    CleanCanonical(p);
    if input[0] != '/' {
      CleanCanonical(cwd);
      assert (cwd + "/" + input)[0] == '/';
      SplitConcat(cwd, input);
      ResolveAppend([], Split(cwd), Split(input), true);
      ResolveCanonical(cwd, []);
      assert [] + Parts(cwd) == Parts(cwd);
      assert JoinPath(cwd, input) == p;
    }
    CanonicalDoesNotEscape(p);
    assert "/" <= p;
  }

  /** Normalising twice changes nothing, whatever the second directory is. */
  lemma NormalizeIdempotent(p: string, cwd: string)
    requires Canonical(p)
    ensures NormalizePath(p, cwd) == Ok(p)
  {
    CleanCanonical(p);
    CanonicalDoesNotEscape(p);
    assert "/" <= p;
  }

  lemma RenderInjective(a: seq<string>, b: seq<string>)
    requires ValidParts(a) && ValidParts(b) && Render(a) == Render(b)
    ensures a == b
  {
    PartsRender(a);
    PartsRender(b);
  }

  lemma {:induction false} LastSlashRaw(a: string, last: string)
    requires '/' !in last
    ensures LastSlash(a + "/" + last) == |a|
  {
    var p := a + "/" + last;
    if last != "" {
      assert p[..|p| - 1] == a + "/" + last[..|last| - 1];
      assert p[|p| - 1] == last[|last| - 1];
      LastSlashRaw(a, last[..|last| - 1]);
    }
  }

  lemma TrailingSlash(cs: seq<string>)
    requires ValidParts(cs)
    ensures Clean(Raw(cs) + "/") == Render(cs)
  {
    assert Raw(cs) + "/" + "" == Raw(cs) + "/";
    assert forall c | c in cs :: ValidPart(c);
    SplitConcat(Raw(cs), "");
    SplitRaw(cs);
    ResolveAppend([], [""] + cs, [""], true);
    assert ([""] + cs)[1..] == cs;
    ResolveValid([], cs, true);
    assert [] + cs == cs;
    assert [""][1..] == [];
    assert (Raw(cs) + "/")[0] == '/' by {
      if cs != [] { AbsoluteRender(cs); }
    }
  }

  /** The parent of a canonical path drops its last component. */
  lemma DirRender(cs: seq<string>)
    requires ValidParts(cs)
    ensures Dir(Render(cs)) == if cs == [] then "/" else Render(cs[..|cs| - 1])
    ensures cs != [] ==> ValidParts(cs[..|cs| - 1])
  {
    if cs == [] {
      assert "/"[..1] == "/";
      PartsRender([]);
      CleanCanonical("/");
    } else {
      var init, last := cs[..|cs| - 1], cs[|cs| - 1];
      assert ValidPart(last);
      assert forall c | c in init :: c in cs;
      LastSlashRaw(Raw(init), last);
      assert (Raw(init) + "/" + last)[..|Raw(init)| + 1] == Raw(init) + "/";
      TrailingSlash(init);
    }
  }

  lemma BaseRender(cs: seq<string>)
    requires ValidParts(cs) && cs != []
    ensures Base(Render(cs)) == cs[|cs| - 1]
  {
    var init, last := cs[..|cs| - 1], cs[|cs| - 1];
    assert ValidPart(last);
    assert last[|last| - 1] in last;
    LastSlashRaw(Raw(init), last);
    BaseOf(Raw(init), last);
  }

  lemma BaseOf(a: string, last: string)
    requires last != "" && '/' !in last && LastSlash(a + "/" + last) == |a|
    ensures Base(a + "/" + last) == last
  {
    var p := a + "/" + last;
    assert p[|p| - 1] == last[|last| - 1] && last[|last| - 1] in last;
    assert p[|a| + 1..] == last;
  }

  lemma JoinRender(cs: seq<string>, c: string)
    requires ValidParts(cs) && ValidPart(c)
    ensures JoinPath(Render(cs), c) == Render(cs + [c])
  {
    PartsRender(cs);
    CleanCanonical(Render(cs));
    SplitConcat(Render(cs), c);
    SplitPlain(c);
    ResolveAppend([], Split(Render(cs)), [c], true);
    ResolveCanonical(Render(cs), []);
    assert [] + cs == cs;
    assert [c][1..] == [];
    assert Resolve(cs, [c], true) == Resolve(cs + [c], [], true);
  }

  lemma PrefixParts(a: seq<string>, b: seq<string>, rest: string)
    requires ValidParts(a) && ValidParts(b) && a != [] && b != []
    requires Render(b) == Render(a) + "/" + rest
    ensures a <= b
  {
    PartsRender(a);
    PartsRender(b);
    SplitConcat(Render(a), rest);
    var tail := a + Split(rest);
    assert Split(Render(b)) == [""] + tail;
    assert b == ([""] + b)[1..] == ([""] + tail)[1..] == tail;
  }

  lemma NoTrailingSlash(a: seq<string>)
    requires ValidParts(a) && a != []
    ensures Render(a)[|Render(a)| - 1] != '/'
  {
    var last := a[|a| - 1];
    assert ValidPart(last) && last[|last| - 1] in last;
    assert Render(a)[|Render(a)| - 1] == last[|last| - 1];
  }

  /** The string test for "inside this subtree" is the prefix order on components. */
  lemma UnderRender(a: seq<string>, b: seq<string>)
    requires ValidParts(a) && ValidParts(b)
    ensures Under(Render(a), Render(b)) <==> a <= b
  {
    var p, k := Render(a), Render(b);
    AbsoluteRender(a);
    AbsoluteRender(b);
    if a != [] {
      NoTrailingSlash(a);
      if a <= b {
        RawConcat(a, b[|a|..]);
        assert b == a + b[|a|..];
        if b != a { AbsoluteRender(b[|a|..]); }
      }
      if p == k {
        RenderInjective(a, b);
      } else if p + "/" <= k {
        assert b != [] by { assert |k| > 1; }
        assert k == p + "/" + k[|p| + 1..];
        PrefixParts(a, b, k[|p| + 1..]);
      }
    }
  }

  /** Moving the path of a subtree entry: the code's
      `path.Clean(dst + "/" + TrimPrefix(name, src))` replaces the prefix. */
  lemma RelocateRender(src: seq<string>, dst: seq<string>, t: seq<string>)
    requires ValidParts(src) && ValidParts(dst) && ValidParts(t) && src != [] && dst != []
    ensures Render(src) <= Render(src + t)
    ensures Clean(Render(dst) + "/" + Render(src + t)[|Render(src)|..]) == Render(dst + t)
    ensures Render(dst) + Render(src + t)[|Render(src)|..] == Render(dst + t)
  {
    RawConcat(src, t);
    RawConcat(dst, t);
    var rel := Render(src + t)[|Render(src)|..];
    assert rel == Raw(t);
    var s := Render(dst) + "/" + rel;
    AbsoluteRender(dst);
    PartsRender(dst);
    SplitConcat(Render(dst), rel);
    assert forall c | c in t :: ValidPart(c);
    SplitRaw(t);
    ResolveAppend([], Split(Render(dst)), Split(rel), true);
    ResolveCanonical(Render(dst), []);
    assert [] + dst == dst;
    assert ([""] + t)[1..] == t;
    ResolveValid(dst, t, true);
  }
}
