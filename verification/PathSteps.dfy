/** What a path leads to, one component at a time: the cases of path.Clean that NormalizePath
    and safePackagePath rely on, without the stack that computes them. */
module PathSteps {
  import opened Text
  import opened Host
  import opened Paths
  import FileTree
  import M = Machine
  import PackagePaths

  /** Where a single component leads from a directory of the host. */
  ghost predicate Leads(from: seq<string>, c: string, to: seq<string>) {
    && (c == "" || c == "." ==> to == from)
    && (c == ".." && from == [] ==> to == [])
    && (c == ".." && from != [] ==> to == from[..|from| - 1])
    && (ValidPart(c) ==> to == from + [c])
  }

  lemma OneStep(from: seq<string>, c: string)
    requires ValidParts(from) && '/' !in c
    ensures Leads(from, c, Resolve(from, [c], true))
  {
    assert [c][1..] == [];
    assert from != [] ==> ValidPart(from[|from| - 1]);
  }

  /** A single component, from a directory and from the root. */
  lemma ComponentLeads(c: string, cwd: string)
    requires Canonical(cwd) && '/' !in c
    ensures c != "" ==> NormalizePath(c, cwd).Ok? && Leads(Parts(cwd), c, Parts(NormalizePath(c, cwd).path))
    ensures NormalizePath("/" + c, cwd).Ok? && Leads([], c, Parts(NormalizePath("/" + c, cwd).path))
  {
    hide NormalizePath, Leads, Parts;
    SplitPlain(c);
    OneStep(Parts(cwd), c);
    if c != "" {
      assert c[0] in c;
      NormalizeMeaning(c, cwd);
    }
    OneStep([], c);
    FromRoot(c);
    NormalizeMeaning("/" + c, cwd);
  }

  lemma FromRoot(c: string)
    requires '/' !in c
    ensures Resolve([], Split("/" + c), true) == Resolve([], [c], true)
  {
    SplitPlain(c);
    SplitConcat("", c);
    assert "" + "/" + c == "/" + c && Split("") == [""];
    assert ([""] + [c])[1..] == [c];
  }

  /** One more component behind a path. */
  lemma AppendLeads(a: string, c: string, cwd: string)
    requires Canonical(cwd) && a != "" && '/' !in c
    ensures NormalizePath(a, cwd).Ok? && NormalizePath(a + "/" + c, cwd).Ok?
    ensures Leads(Parts(NormalizePath(a, cwd).path), c, Parts(NormalizePath(a + "/" + c, cwd).path))
  {
    hide NormalizePath, Leads, Resolve, Split;
    NormalizeMeaning(a, cwd);
    NormalizeMeaning(a + "/" + c, cwd);
    SplitConcat(a, c);
    SplitPlain(c);
    assert (a + "/" + c)[0] == a[0];
    ResolveAppend(if a[0] == '/' then [] else Parts(cwd), Split(a), [c], true);
    OneStep(Parts(NormalizePath(a, cwd).path), c);
  }

  /** A way of reading paths that starts and goes on like that. */
  ghost predicate Walks(f: (string, string) -> seq<string>) {
    && (forall c, cwd | Canonical(cwd) && '/' !in c && c != "" :: Leads(Parts(cwd), c, f(c, cwd)))
    && (forall c, cwd | Canonical(cwd) && '/' !in c :: Leads([], c, f("/" + c, cwd)))
    && (forall a, c, cwd | Canonical(cwd) && a != "" && '/' !in c :: Leads(f(a, cwd), c, f(a + "/" + c, cwd)))
  }

  lemma LeadsOnce(from: seq<string>, c: string, x: seq<string>, y: seq<string>)
    requires '/' !in c && Leads(from, c, x) && Leads(from, c, y)
    ensures x == y
  {}

  /** The cases leave no choice: every other such way of reading a path is NormalizePath. */
  lemma {:induction false} WalksDetermine(f: (string, string) -> seq<string>, a: string, cwd: string)
    requires Walks(f) && Canonical(cwd) && a != ""
    ensures NormalizePath(a, cwd).Ok? && f(a, cwd) == Parts(NormalizePath(a, cwd).path)
    decreases |a|
  {
    hide NormalizePath, Leads, Canonical, Split, Parts;
    var i := LastSlash(a);
    var c := a[i + 1..];
    if i < 0 {
      assert a == c;
      ComponentLeads(a, cwd);
      LeadsOnce(Parts(cwd), a, f(a, cwd), Parts(NormalizePath(a, cwd).path));
    } else if i == 0 {
      assert a == "/" + c;
      ComponentLeads(c, cwd);
      LeadsOnce([], c, f(a, cwd), Parts(NormalizePath(a, cwd).path));
    } else {
      var front := a[..i];
      assert a == front + "/" + c;
      WalksDetermine(f, front, cwd);
      AppendLeads(front, c, cwd);
      LeadsOnce(f(front, cwd), c, f(a, cwd), Parts(NormalizePath(a, cwd).path));
    }
  }

  // ---- relative names, as archives have them ----

  /** The components of a cleaned relative name. */
  function RelativeParts(s: string): seq<string> { if s == "." then [] else Split(s) }

  /** Where a component leads from a relative name: `..` takes back what is not `..` itself. */
  ghost predicate LeadsRelative(from: seq<string>, c: string, to: seq<string>) {
    && (c == "" || c == "." ==> to == from)
    && (c == ".." && from != [] && from[|from| - 1] != ".." ==> to == from[..|from| - 1])
    && (c == ".." && (from == [] || from[|from| - 1] == "..") ==> to == from + [".."])
    && (ValidPart(c) ==> to == from + [c])
  }

  lemma OneRelativeStep(from: seq<string>, c: string)
    requires '/' !in c
    ensures LeadsRelative(from, c, Resolve(from, [c], false))
  {
    assert [c][1..] == [];
  }

  ghost predicate Kept(cs: seq<string>) { forall c | c in cs :: '/' !in c && c != "" && c != "." }

  lemma {:induction false} ResolveKept(stack: seq<string>, parts: seq<string>)
    requires Kept(stack) && forall c | c in parts :: '/' !in c
    ensures Kept(Resolve(stack, parts, false))
    decreases |parts|
  {
    if parts != [] {
      var c := parts[0];
      assert c in parts;
      ResolveKept(Resolve(stack, [c], false), parts[1..]) by { StepKept(stack, c); }
      assert parts == [c] + parts[1..];
      ResolveAppend(stack, [c], parts[1..], false);
    }
  }

  lemma StepKept(stack: seq<string>, c: string)
    requires Kept(stack) && '/' !in c
    ensures Kept(Resolve(stack, [c], false))
  {
    assert [c][1..] == [];
  }

  lemma CleanRelativeParts(a: string)
    requires a != "" && a[0] != '/'
    ensures RelativeParts(Clean(a)) == Resolve([], Split(a), false)
  {
    SplitHasNoSlash(a);
    ResolveKept([], Split(a));
    var cs := Resolve([], Split(a), false);
    if cs != [] {
      SplitRaw(cs);
      FrontSlash(cs);
    }
  }

  lemma FrontSlash(cs: seq<string>)
    requires Kept(cs) && cs != [] && Split(Raw(cs)) == [""] + cs
    ensures Raw(cs) != "" && Split(Raw(cs)[1..]) == cs && Raw(cs)[1..] != "."
  {
    AbsoluteRender(cs);
    var r := Raw(cs)[1..];
    assert Raw(cs) == "/" + r && "" + "/" + r == "/" + r;
    SplitConcat("", r);
    assert Split("") == [""];
    assert ([""] + Split(r))[1..] == Split(r) && ([""] + cs)[1..] == cs;
    SplitPlain(".");
    NoDot(cs);
  }

  lemma NoDot(cs: seq<string>)
    requires Kept(cs)
    ensures cs != ["."]
  {
    assert cs == ["."] ==> "." in cs;
  }

  /** Clean on relative names, component by component. */
  lemma CleanLeads(a: string, c: string)
    requires a != "" && a[0] != '/' && '/' !in c
    ensures LeadsRelative(RelativeParts(Clean(a)), c, RelativeParts(Clean(a + "/" + c)))
  {
    hide Clean, LeadsRelative, Resolve, Split;
    CleanRelativeParts(a);
    CleanRelativeParts(a + "/" + c);
    SplitConcat(a, c);
    SplitPlain(c);
    ResolveAppend([], Split(a), [c], false);
    OneRelativeStep(RelativeParts(Clean(a)), c);
  }

  lemma CleanComponent(c: string)
    requires '/' !in c && c != ""
    ensures LeadsRelative([], c, RelativeParts(Clean(c)))
  {
    hide Clean, LeadsRelative, Resolve, Split;
    assert c[0] in c;
    CleanRelativeParts(c);
    SplitPlain(c);
    OneRelativeStep([], c);
  }

  // ---- the guard of archive names ----

  /** A package name: a backslash is a slash; what is empty, too long, absolute, or holds a NUL or a colon is
      refused, and so is what leads above its start; every other name becomes its cleaned form. */
  lemma PackageNameExact(name: string)
    ensures var n := PackagePaths.Slashed(name);
            && |n| == |name| && (forall i | 0 <= i < |n| :: n[i] == if name[i] == '\\' then '/' else name[i])
            && PackagePaths.SafePackagePath(name) ==
                 if n == "" || ByteLen(n) > 4096 || '\0' in n || ':' in n || n[0] == '/' || RelativeParts(Clean(n)) == []
                    || RelativeParts(Clean(n))[0] == ".." then PackagePaths.Unsafe
                 else PackagePaths.Safe(Clean(n))
  {
    hide ByteLen, Clean, Split;
    var n := PackagePaths.Slashed(name);
    if n != "" && n[0] != '/' { LeadsUp(n); }
  }

  /** A cleaned name leads above its start exactly if `..` is its first component. */
  lemma LeadsUp(n: string)
    requires n != "" && n[0] != '/'
    ensures var clean := Clean(n);
            RelativeParts(clean) == [] || RelativeParts(clean)[0] == ".." <==> clean == "." || clean == ".." || "../" <= clean
  {
    hide Clean, Resolve;
    SplitHasNoSlash(n);
    ResolveKept([], Split(n));
    CleanRelativeParts(n);
    FirstOfSplit(Clean(n));
  }

  lemma FirstOfSplit(s: string)
    ensures Split(s)[0] == ".." <==> s == ".." || "../" <= s
  {
    SplitPlain("..");
    if "../" <= s {
      var rest := s[3..];
      assert s == ".." + "/" + rest;
      SplitConcat("..", rest);
    }
    FirstBeforeSlash(s);
  }

  lemma {:induction false} FirstBeforeSlash(s: string)
    ensures var c := Split(s)[0]; s == c || c + "/" <= s
  {
    if s != "" && s[0] != '/' {
      FirstBeforeSlash(s[1..]);
      var c := Split(s[1..])[0];
      assert Split(s)[0] == [s[0]] + c;
      if s[1..] != c { assert s == [s[0]] + s[1..] && [s[0]] + c + "/" == [s[0]] + (c + "/"); }
    }
  }

  // ---- the working directory ----

  /** `cd` enters exactly the existing directories. */
  lemma ChangeDirExact(h: Host, dir: string)
    requires Canonical(h.cwd)
    ensures var (after, r) := M.SetCwd(h, dir);
            && (r.Done? <==> dir != "" && NormalizePath(dir, h.cwd).path in h.files && h.files[NormalizePath(dir, h.cwd).path].directory)
            && (r.Done? ==> after == h.(cwd := NormalizePath(dir, h.cwd).path))
            && (!r.Done? ==> after == h)
  {
    if dir != "" { NormalizeMeaning(dir, h.cwd); }
  }

  /** After `cd a` the relative path `p` is what `a/p` was before. */
  lemma ChangeDirThen(h: Host, a: string, p: string)
    requires Canonical(h.cwd) && M.SetCwd(h, a).1.Done? && p != "" && p[0] != '/'
    ensures NormalizePath(p, M.SetCwd(h, a).0.cwd) == NormalizePath(a + "/" + p, h.cwd)
  {
    hide NormalizePath, Resolve, Split, Parts, Canonical;
    ChangeDirExact(h, a);
    var d := NormalizePath(a, h.cwd).path;
    NormalizeMeaning(a, h.cwd);
    NormalizeMeaning(p, d);
    NormalizeMeaning(a + "/" + p, h.cwd);
    assert (a + "/" + p)[0] == a[0];
    SplitConcat(a, p);
    ResolveAppend(if a[0] == '/' then [] else Parts(h.cwd), Split(a), Split(p), true);
    SamePath(NormalizePath(p, d).path, NormalizePath(a + "/" + p, h.cwd).path);
  }

  lemma SamePath(p: string, q: string)
    requires Canonical(p) && Canonical(q) && Parts(p) == Parts(q)
    ensures p == q
  {}
}
