/** digestFiles (internal/scenario/loader.go): the bytes that a package's digest hashes. */
module Digest {
  import opened Text
  import opened Zip
  import opened Archive

  /** The UTF-8 encoding of names, as a parameter: injective, and zero only for NUL. */
  datatype Encoding = Encoding(utf8: string -> Data) {
    ghost predicate Sane() {
      && (forall a, b :: utf8(a) == utf8(b) ==> a == b)
      && (forall a :: '\0' !in a ==> Zeroless(utf8(a)))
    }
  }

  predicate Zeroless(d: Data) { 0 !in d }

  const ZERO: Data := [0]

  /** Pieces, each closed by a zero byte. */
  function Closed(pieces: seq<Data>): Data {
    if pieces == [] then [] else pieces[0] + ZERO + Closed(pieces[1..])
  }

  /** Name, content, name, content, and so on. */
  function Pieces(E: Encoding, files: Files, names: seq<string>): seq<Data>
    requires forall n | n in names :: n in files
  {
    if names == [] then []
    else
      assert names[0] in names && forall n | n in names[1..] :: n in names;
      [E.utf8(names[0]), files[names[0]]] + Pieces(E, files, names[1..])
  }

  /** What digestFiles feeds to SHA-256: it depends on the map only, not on the order
      in which the keys are visited. */
  function Input(E: Encoding, files: Files): Data { Closed(Pieces(E, files, Sorted(files.Keys))) }

  method CollectKeys(files: Files) returns (keys: set<string>)
    ensures keys == files.Keys
  {
    keys := {};
    var todo := files.Keys;
    while todo != {}
      invariant todo <= files.Keys && keys == files.Keys - todo
      decreases todo
    {
      var key :| key in todo;
      keys := keys + {key};
      todo := todo - {key};
    }
  }

  method Feed(E: Encoding, files: Files, sorted: seq<string>) returns (written: Data)
    requires forall n | n in sorted :: n in files
    ensures written == Closed(Pieces(E, files, sorted))
  {
    hide Closed, Pieces;
    written := [];
    for i := 0 to |sorted|
      invariant forall n | n in sorted[i..] :: n in files
      invariant written + Closed(Pieces(E, files, sorted[i..])) == Closed(Pieces(E, files, sorted))
    {
      var key := sorted[i];
      assert sorted[i..][0] == key && sorted[i..][1..] == sorted[i + 1..];
      PiecesNext(E, files, sorted[i..]);
      Regroup(written, E.utf8(key) + ZERO, files[key] + ZERO, Closed(Pieces(E, files, sorted[i + 1..])));
      written := written + (E.utf8(key) + ZERO) + (files[key] + ZERO);
    }
    NoPieces(E, files, sorted[|sorted|..]);
    assert written + [] == written;
  }

  lemma NoPieces(E: Encoding, files: Files, names: seq<string>)
    requires names == []
    ensures Closed(Pieces(E, files, names)) == []
  {}

  /** digestFiles: the keys in any order, then sorted. */
  method DigestFiles(E: Encoding, sha: Data -> string, files: Files) returns (digest: string)
    ensures digest == sha(Input(E, files))
  {
    hide Closed, Pieces;
    var keys := CollectKeys(files);
    var written := Feed(E, files, Sorted(keys));
    digest := sha(written);
  }

  lemma PiecesNext(E: Encoding, files: Files, names: seq<string>)
    requires names != [] && forall n | n in names :: n in files
    ensures names[0] in names && forall n | n in names[1..] :: n in files
    ensures Closed(Pieces(E, files, names))
         == (E.utf8(names[0]) + ZERO) + ((files[names[0]] + ZERO) + Closed(Pieces(E, files, names[1..])))
  {
    assert names[0] in names && forall n | n in names[1..] :: n in names;
    var rest := Pieces(E, files, names[1..]);
    var two := [E.utf8(names[0]), files[names[0]]];
    assert (two + rest)[1..] == [files[names[0]]] + rest && (two + rest)[1..][1..] == rest;
  }

  lemma Regroup(a: Data, b: Data, c: Data, d: Data)
    ensures a + (b + (c + d)) == a + b + c + d
  {}

  // ---- decoding ----

  lemma ZeroAfter(a: Data, x: Data)
    requires Zeroless(a)
    ensures (a + ZERO + x)[|a|] == 0 && forall k | 0 <= k < |a| :: (a + ZERO + x)[k] != 0
  {
    forall k | 0 <= k < |a| ensures (a + ZERO + x)[k] != 0 { assert (a + ZERO + x)[k] == a[k] && a[k] in a; }
  }

  lemma FirstZero(a: Data, b: Data, x: Data, y: Data)
    requires Zeroless(a) && Zeroless(b) && a + ZERO + x == b + ZERO + y
    ensures a == b && x == y
  {
    ZeroAfter(a, x);
    ZeroAfter(b, y);
    var s := a + ZERO + x;
    assert |a| == |b|;
    assert a == s[..|a|] == b;
    assert x == s[|a| + 1..] == y;
  }

  /** Zero-free pieces can be read back. */
  lemma {:induction false} ClosedInjective(xs: seq<Data>, ys: seq<Data>)
    requires (forall x | x in xs :: Zeroless(x)) && (forall y | y in ys :: Zeroless(y))
    requires Closed(xs) == Closed(ys)
    ensures xs == ys
    decreases |xs|
  {
    hide Zeroless;
    if xs != [] && ys != [] {
      assert xs[0] in xs && ys[0] in ys;
      assert (forall x | x in xs[1..] :: x in xs) && (forall y | y in ys[1..] :: y in ys);
      FirstZero(xs[0], ys[0], Closed(xs[1..]), Closed(ys[1..]));
      ClosedInjective(xs[1..], ys[1..]);
    }
  }

  lemma {:induction false} PiecesZeroless(E: Encoding, files: Files, names: seq<string>)
    requires E.Sane() && forall n | n in names :: n in files && '\0' !in n && Zeroless(files[n])
    ensures forall p | p in Pieces(E, files, names) :: Zeroless(p)
  {
    hide Zeroless;
    if names != [] {
      assert names[0] in names && forall n | n in names[1..] :: n in names;
      PiecesZeroless(E, files, names[1..]);
    }
  }

  lemma {:induction false} PiecesInjective(E: Encoding, f: Files, g: Files, a: seq<string>, b: seq<string>)
    requires E.Sane() && (forall n | n in a :: n in f) && (forall n | n in b :: n in g)
    requires Pieces(E, f, a) == Pieces(E, g, b)
    ensures a == b && forall n | n in a :: f[n] == g[n]
    decreases |a|
  {
    if a != [] && b != [] {
      assert (forall n | n in a[1..] :: n in a) && (forall n | n in b[1..] :: n in b);
      var p, q := Pieces(E, f, a), Pieces(E, g, b);
      assert p[0] == E.utf8(a[0]) && q[0] == E.utf8(b[0]) && p[1] == f[a[0]] && q[1] == g[b[0]];
      assert p[2..] == Pieces(E, f, a[1..]) && q[2..] == Pieces(E, g, b[1..]);
      PiecesInjective(E, f, g, a[1..], b[1..]);
      assert a == [a[0]] + a[1..] && b == [b[0]] + b[1..];
    }
  }

  /** Names and contents without NUL. */
  ghost predicate Plain(files: Files) { forall n | n in files :: '\0' !in n && Zeroless(files[n]) }

  /** For such packages the digest's input determines the package. */
  lemma InputDeterminesFiles(E: Encoding, f: Files, g: Files)
    requires E.Sane() && Plain(f) && Plain(g)
    ensures Input(E, f) == Input(E, g) <==> f == g
  {
    hide Zeroless, Pieces, Closed, Encoding.Sane, StrictlySorted;
    if Input(E, f) == Input(E, g) {
      var a, b := Sorted(f.Keys), Sorted(g.Keys);
      PiecesZeroless(E, f, a);
      PiecesZeroless(E, g, b);
      ClosedInjective(Pieces(E, f, a), Pieces(E, g, b));
      PiecesInjective(E, f, g, a, b);
      assert forall n :: n in f <==> n in a;
      assert forall n :: n in g <==> n in b;
      assert f == g;
    }
  }

  /** With a NUL in a content it need not: a file can swallow the next one's name. Both
      packages have the same scenario document. */
  lemma NulIsAmbiguous(E: Encoding, document: Data)
    requires E.Sane()
    ensures var f := map["a" := [], "b" := [], DOCUMENT := document];
            var g := map["a" := ZERO + E.utf8("b") + ZERO, DOCUMENT := document];
            f != g && Input(E, f) == Input(E, g)
  {
    var f: Files := map["a" := [], "b" := [], DOCUMENT := document];
    var g: Files := map["a" := ZERO + E.utf8("b") + ZERO, DOCUMENT := document];
    SortedThree();
    SortedTwo();
    hide Closed, Pieces, DOCUMENT, Encoding.Sane;
    assert f.Keys == {"a", "b", DOCUMENT} && g.Keys == {"a", DOCUMENT} && "b" !in g && "b" in f;
    ThreeFiles(E, f);
    TwoFiles(E, g);
    Swallowed(E.utf8("a"), E.utf8("b"), (E.utf8(DOCUMENT) + ZERO) + ((document + ZERO) + []));
  }

  lemma LastFile(E: Encoding, f: Files, n: string)
    requires n in f
    ensures Closed(Pieces(E, f, [n])) == (E.utf8(n) + ZERO) + ((f[n] + ZERO) + [])
  {
    PiecesNext(E, f, [n]);
    assert [n][1..] == [];
    NoPieces(E, f, [n][1..]);
  }

  lemma TwoFiles(E: Encoding, g: Files)
    requires "a" in g && DOCUMENT in g
    ensures Closed(Pieces(E, g, ["a", DOCUMENT]))
         == (E.utf8("a") + ZERO) + ((g["a"] + ZERO) + ((E.utf8(DOCUMENT) + ZERO) + ((g[DOCUMENT] + ZERO) + [])))
  {
    hide DOCUMENT, Closed, Pieces;
    PiecesNext(E, g, ["a", DOCUMENT]);
    assert ["a", DOCUMENT][1..] == [DOCUMENT];
    LastFile(E, g, DOCUMENT);
  }

  lemma ThreeFiles(E: Encoding, f: Files)
    requires "a" in f && "b" in f && DOCUMENT in f
    ensures Closed(Pieces(E, f, ["a", "b", DOCUMENT]))
         == (E.utf8("a") + ZERO) + ((f["a"] + ZERO)
            + ((E.utf8("b") + ZERO) + ((f["b"] + ZERO) + ((E.utf8(DOCUMENT) + ZERO) + ((f[DOCUMENT] + ZERO) + [])))))
  {
    hide DOCUMENT, Closed, Pieces;
    PiecesNext(E, f, ["a", "b", DOCUMENT]);
    assert ["a", "b", DOCUMENT][1..] == ["b", DOCUMENT] && ["b", DOCUMENT][1..] == [DOCUMENT];
    PiecesNext(E, f, ["b", DOCUMENT]);
    LastFile(E, f, DOCUMENT);
  }

  lemma Swallowed(a: Data, b: Data, rest: Data)
    ensures (a + ZERO) + (([] + ZERO) + ((b + ZERO) + (([] + ZERO) + rest))) == (a + ZERO) + (((ZERO + b + ZERO) + ZERO) + rest)
  {}

  lemma DocumentLast()
    ensures Less("a", "b") && Less("a", DOCUMENT) && Less("b", DOCUMENT) && DOCUMENT != "a" && DOCUMENT != "b"
  {
    assert DOCUMENT[0] == 's';
  }

  lemma SortedThree()
    ensures Sorted({"a", "b", DOCUMENT}) == ["a", "b", DOCUMENT]
  {
    hide DOCUMENT;
    DocumentLast();
    SortedUnique(Sorted({"a", "b", DOCUMENT}), ["a", "b", DOCUMENT]);
  }

  lemma SortedTwo()
    ensures Sorted({"a", DOCUMENT}) == ["a", DOCUMENT]
  {
    hide DOCUMENT;
    DocumentLast();
    SortedUnique(Sorted({"a", DOCUMENT}), ["a", DOCUMENT]);
  }

  // ---- which packages share their input ----

  lemma {:induction false} ClosedBoth(xs: seq<Data>, ys: seq<Data>)
    ensures Closed(xs + ys) == Closed(xs) + Closed(ys)
    decreases |xs|
  {
    if xs == [] {
      assert xs + ys == ys;
    } else {
      assert (xs + ys)[1..] == xs[1..] + ys;
      ClosedBoth(xs[1..], ys);
      Regroup(xs[0], ZERO, Closed(xs[1..]), Closed(ys));
    }
  }

  lemma {:induction false} PiecesBoth(E: Encoding, f: Files, a: seq<string>, b: seq<string>)
    requires (forall n | n in a :: n in f) && (forall n | n in b :: n in f)
    ensures forall n | n in a + b :: n in f
    ensures Pieces(E, f, a + b) == Pieces(E, f, a) + Pieces(E, f, b)
    decreases |a|
  {
    if a == [] {
      assert a + b == b;
    } else {
      assert (a + b)[1..] == a[1..] + b && forall n | n in a[1..] :: n in a;
      assert a[0] in a;
      PiecesBoth(E, f, a[1..], b);
    }
  }

  lemma {:induction false} SamePieces(E: Encoding, f: Files, g: Files, names: seq<string>)
    requires forall n | n in names :: n in f && n in g && f[n] == g[n]
    ensures Pieces(E, f, names) == Pieces(E, g, names)
  {
    if names != [] {
      assert names[0] in names && forall n | n in names[1..] :: n in names;
      SamePieces(E, f, g, names[1..]);
    }
  }

  /** The package without the `i + 1`-th of its sorted names; the file before it holds what
      the two brought to the digest. */
  function Merged(E: Encoding, f: Files, u: string, v: string): Files
    requires u in f && v in f
  {
    (f - {v})[u := f[u] + ZERO + E.utf8(v) + ZERO + f[v]]
  }

  lemma SortedWithout(a: seq<string>, i: nat, keys: set<string>)
    requires StrictlySorted(a) && i + 1 < |a| && forall n :: n in keys <==> n in a && n != a[i + 1]
    ensures a[i] != a[i + 1] && Sorted(keys) == a[..i] + ([a[i]] + a[i + 2..])
  {
    var b := a[..i] + ([a[i]] + a[i + 2..]);
    LessIrreflexive(a[i]);
    assert b == a[..i + 1] + a[i + 2..];
    forall n ensures n in b <==> n in keys {
      if n in a && n != a[i + 1] {
        var k: nat :| k < |a| && a[k] == n;
        assert n == if k <= i then a[..i + 1][k] else a[i + 2..][k - i - 2];
      }
      LessIrreflexive(a[i + 1]);
    }
    SortedUnique(Sorted(keys), b);
  }

  lemma OneFile(E: Encoding, f: Files, n: string)
    requires n in f
    ensures Pieces(E, f, [n]) == [E.utf8(n), f[n]]
  {
    assert [n][1..] == [];
  }

  lemma ClosedNext(p: Data, rest: seq<Data>)
    ensures Closed([p] + rest) == p + ZERO + Closed(rest)
  {
    assert ([p] + rest)[1..] == rest;
  }

  lemma TwoTogether(u: Data, cu: Data, v: Data, cv: Data)
    ensures Closed([u, cu] + [v, cv]) == Closed([u, cu + ZERO + v + ZERO + cv])
  {
    hide Closed;
    var d := cu + ZERO + v + ZERO + cv;
    assert [u, cu] + [v, cv] == [u] + ([cu] + ([v] + ([cv] + [])));
    assert [u, d] == [u] + ([d] + []);
    ClosedNext(u, [cu] + ([v] + ([cv] + [])));
    ClosedNext(cu, [v] + ([cv] + []));
    ClosedNext(v, [cv] + []);
    ClosedNext(cv, []);
    ClosedNext(u, [d] + []);
    ClosedNext(d, []);
    assert cu + ZERO + (v + ZERO + (cv + ZERO + Closed([]))) == d + ZERO + Closed([]);
  }

  lemma MergedFiles(E: Encoding, f: Files, u: string, v: string)
    requires u in f && v in f && u != v
    ensures var g := Merged(E, f, u, v);
            && g.Keys == f.Keys - {v} && g[u] == f[u] + ZERO + E.utf8(v) + ZERO + f[v]
            && forall n | n in g && n != u :: g[n] == f[n]
  {}

  /** The bytes of two files, and of the one that they are merged into. */
  lemma MergedPair(E: Encoding, f: Files, u: string, v: string)
    requires u in f && v in f && u != v
    ensures Closed(Pieces(E, f, [u, v])) == Closed(Pieces(E, Merged(E, f, u, v), [u]))
  {
    hide Closed, Pieces, Merged;
    MergedFiles(E, f, u, v);
    assert [u, v] == [u] + [v];
    PiecesBoth(E, f, [u], [v]);
    OneFile(E, f, u);
    OneFile(E, f, v);
    OneFile(E, Merged(E, f, u, v), u);
    TwoTogether(E.utf8(u), f[u], E.utf8(v), f[v]);
  }

  lemma SplitNames(a: seq<string>, i: nat)
    requires i + 1 < |a|
    ensures a == a[..i] + ([a[i], a[i + 1]] + a[i + 2..])
  {}

  /** Two neighbours, in the order of the names, can always be merged: the bytes stay. */
  lemma MergedSame(E: Encoding, f: Files, i: nat)
    requires i + 1 < |f|
    ensures var a := Sorted(f.Keys);
            a[i] in f && a[i + 1] in f && a[i] != a[i + 1] && Input(E, Merged(E, f, a[i], a[i + 1])) == Input(E, f)
  {
    hide StrictlySorted, Closed, Pieces, Merged;
    var a := Sorted(f.Keys);
    var u, v := a[i], a[i + 1];
    assert u in a && v in a;
    SortedWithout(a, i, f.Keys - {v});
    MergedFiles(E, f, u, v);
    var g := Merged(E, f, u, v);
    var front, back := a[..i], a[i + 2..];
    FrontAndBack(a, i);
    SplitNames(a, i);
    Parts(E, f, front, [u, v], back);
    Parts(E, g, front, [u], back);
    SamePieces(E, f, g, front);
    SamePieces(E, f, g, back);
    MergedPair(E, f, u, v);
  }

  lemma FrontAndBack(a: seq<string>, i: nat)
    requires StrictlySorted(a) && i + 1 < |a|
    ensures forall n | n in a[..i] || n in a[i + 2..] :: n in a && n != a[i] && n != a[i + 1]
  {
    forall n | n in a[..i] || n in a[i + 2..] ensures n in a && n != a[i] && n != a[i + 1] {
      LessIrreflexive(n);
    }
  }

  lemma Parts(E: Encoding, f: Files, a: seq<string>, b: seq<string>, c: seq<string>)
    requires (forall n | n in a :: n in f) && (forall n | n in b :: n in f) && (forall n | n in c :: n in f)
    ensures forall n | n in a + (b + c) :: n in f
    ensures Closed(Pieces(E, f, a + (b + c))) == Closed(Pieces(E, f, a)) + (Closed(Pieces(E, f, b)) + Closed(Pieces(E, f, c)))
  {
    hide Closed, Pieces;
    PiecesBoth(E, f, b, c);
    PiecesBoth(E, f, a, b + c);
    ClosedBoth(Pieces(E, f, b), Pieces(E, f, c));
    ClosedBoth(Pieces(E, f, a), Pieces(E, f, b + c));
  }

  /** A content, cut at its zero bytes. */
  function Cut(d: Data): (r: seq<Data>)
    ensures r != []
  {
    if d == [] then [[]]
    else
      var r := Cut(d[1..]);
      if d[0] == 0 then [[]] + r else [[d[0]] + r[0]] + r[1..]
  }

  lemma CutFirst(d: Data)
    requires d != []
    ensures var r := Cut(d[1..]); Cut(d) == if d[0] == 0 then [[]] + r else [[d[0]] + r[0]] + r[1..]
  {}

  lemma {:induction false} CutZeroless(d: Data)
    ensures forall p | p in Cut(d) :: Zeroless(p)
  {
    if d != [] {
      CutZeroless(d[1..]);
      var r := Cut(d[1..]);
      assert r[0] in r && forall p | p in r[1..] :: p in r;
    }
  }

  lemma ByteFirst(d: Data, x: Data, z: Data)
    requires d != [] && x + ZERO + z == d[1..] + ZERO
    ensures [d[0]] + x + ZERO + z == d + ZERO
    ensures d[0] == 0 ==> [] + ZERO + (d[1..] + ZERO) == d + ZERO
  {
    assert [d[0]] + x + ZERO + z == [d[0]] + (x + ZERO + z);
  }

  lemma {:induction false} CutCloses(d: Data)
    ensures Closed(Cut(d)) == d + ZERO
  {
    hide Closed, Cut;
    if d == [] {
      ClosedNext([], []);
      NothingCut();
      NothingClosed();
      assert [[]] + [] == Cut(d);
    } else {
      CutCloses(d[1..]);
      CutFirst(d);
      var r := Cut(d[1..]);
      assert r == [r[0]] + r[1..];
      ClosedNext(r[0], r[1..]);
      ByteFirst(d, r[0], Closed(r[1..]));
      if d[0] == 0 { ClosedNext([], r); } else { ClosedNext([d[0]] + r[0], r[1..]); }
    }
  }

  lemma NothingCut()
    ensures Cut([]) == [[]]
  {}

  lemma NothingClosed()
    ensures Closed([]) == []
  {}

  lemma {:induction false} CutOnce(d: Data)
    ensures |Cut(d)| == 1 ==> Cut(d) == [d]
    ensures Zeroless(d) ==> Cut(d) == [d]
  {
    if d != [] {
      CutOnce(d[1..]);
      assert d == [d[0]] + d[1..] && d[0] in d;
      assert Zeroless(d) ==> forall b | b in d[1..] :: b in d;
    }
  }

  /** The pieces, with the contents cut. */
  function CutPieces(E: Encoding, files: Files, names: seq<string>): (r: seq<Data>)
    requires forall n | n in names :: n in files
    ensures |r| >= 2 * |names|
  {
    if names == [] then []
    else
      assert names[0] in names && forall n | n in names[1..] :: n in names;
      [E.utf8(names[0])] + (Cut(files[names[0]]) + CutPieces(E, files, names[1..]))
  }

  lemma {:induction false} CutSame(E: Encoding, files: Files, names: seq<string>)
    requires E.Sane() && forall n | n in names :: n in files && '\0' !in n
    ensures Closed(CutPieces(E, files, names)) == Closed(Pieces(E, files, names))
    ensures forall p | p in CutPieces(E, files, names) :: Zeroless(p)
  {
    hide Closed, Zeroless;
    if names != [] {
      assert names[0] in names && forall n | n in names[1..] :: n in names;
      CutSame(E, files, names[1..]);
      var n, d := E.utf8(names[0]), files[names[0]];
      var rest := CutPieces(E, files, names[1..]);
      CutCloses(d);
      CutZeroless(d);
      ClosedNext(n, Cut(d) + rest);
      ClosedBoth(Cut(d), rest);
      PiecesNext(E, files, names);
    }
  }

  lemma CutNext(E: Encoding, f: Files, n: string, rest: seq<string>)
    requires n in f && forall m | m in rest :: m in f
    ensures forall m | m in [n] + rest :: m in f
    ensures CutPieces(E, f, [n] + rest) == [E.utf8(n)] + Cut(f[n]) + CutPieces(E, f, rest)
  {
    assert ([n] + rest)[1..] == rest;
    assert [E.utf8(n)] + (Cut(f[n]) + CutPieces(E, f, rest)) == [E.utf8(n)] + Cut(f[n]) + CutPieces(E, f, rest);
  }

  lemma {:induction false} CutBoth(E: Encoding, f: Files, a: seq<string>, b: seq<string>)
    requires (forall n | n in a :: n in f) && (forall n | n in b :: n in f)
    ensures forall n | n in a + b :: n in f
    ensures CutPieces(E, f, a + b) == CutPieces(E, f, a) + CutPieces(E, f, b)
    decreases |a|
  {
    hide CutPieces, Cut;
    if a == [] {
      assert a + b == b;
      NoneCut(E, f);
    } else {
      assert a + b == [a[0]] + (a[1..] + b) && a == [a[0]] + a[1..] && a[0] in a && forall n | n in a[1..] :: n in a;
      CutBoth(E, f, a[1..], b);
      CutNext(E, f, a[0], a[1..] + b);
      CutNext(E, f, a[0], a[1..]);
    }
  }

  lemma NoneCut(E: Encoding, f: Files)
    ensures CutPieces(E, f, []) == []
  {}

  /** Packages whose names have no NUL. */
  ghost predicate PlainNames(files: Files) { forall n | n in files :: '\0' !in n }

  /** Inputs are equal exactly if the pieces are, cut at every zero byte. */
  lemma InputCut(E: Encoding, f: Files, g: Files)
    requires E.Sane() && Plain(f) && PlainNames(g)
    ensures var a, b := Sorted(f.Keys), Sorted(g.Keys);
            Input(E, f) == Input(E, g) <==> Pieces(E, f, a) == CutPieces(E, g, b)
  {
    hide Closed, Zeroless, Pieces, CutPieces, Encoding.Sane;
    var a, b := Sorted(f.Keys), Sorted(g.Keys);
    PiecesZeroless(E, f, a);
    CutSame(E, g, b);
    if Closed(Pieces(E, f, a)) == Closed(CutPieces(E, g, b)) { ClosedInjective(Pieces(E, f, a), CutPieces(E, g, b)); }
  }

  lemma {:induction false} TwoPerName(E: Encoding, f: Files, names: seq<string>)
    requires forall n | n in names :: n in f
    ensures |Pieces(E, f, names)| == 2 * |names|
  {
    if names != [] {
      assert names[0] in names && forall n | n in names[1..] :: n in names;
      TwoPerName(E, f, names[1..]);
    }
  }

  /** One file at most leaves nothing to merge. */
  lemma OneReads(E: Encoding, f: Files, g: Files, a: seq<string>, b: seq<string>)
    requires E.Sane() && (forall n | n in a :: n in f) && (forall n | n in b :: n in g)
    requires |a| <= 1 && Pieces(E, f, a) == CutPieces(E, g, b)
    ensures a == b && forall n | n in a :: f[n] == g[n]
  {
    TwoPerName(E, f, a);
    if b != [] {
      assert b[0] in b && a[0] in a && b[1..] == [] && a == [a[0]];
      OneFile(E, f, a[0]);
      var c := Cut(g[b[0]]);
      assert CutPieces(E, g, b) == [E.utf8(b[0])] + (c + []);
      assert [E.utf8(a[0]), f[a[0]]] == [E.utf8(b[0])] + (c + []);
      assert E.utf8(a[0]) == ([E.utf8(b[0])] + (c + []))[0] && |c| == 1 && f[a[0]] == ([E.utf8(b[0])] + (c + []))[1] == c[0];
      CutOnce(g[b[0]]);
    }
  }

  lemma SameFiles(f: Files, g: Files, names: seq<string>)
    requires names == Sorted(f.Keys) == Sorted(g.Keys) && forall n | n in names :: n in f && n in g && f[n] == g[n]
    ensures f == g
  {
    hide StrictlySorted;
    assert forall n :: n in f <==> n in names;
    assert forall n :: n in g <==> n in names;
  }

  /** A package without NUL shares its input with another one, whose names have none, exactly
      if it has two files or more. */
  lemma SharedExact(E: Encoding, f: Files)
    requires E.Sane() && Plain(f)
    ensures (exists g :: g != f && PlainNames(g) && Input(E, g) == Input(E, f)) <==> |f| >= 2
  {
    hide Input, Encoding.Sane, Merged, StrictlySorted, Zeroless, Pieces, CutPieces;
    var a := Sorted(f.Keys);
    if |f| >= 2 {
      MergedSame(E, f, 0);
      MergedFiles(E, f, a[0], a[1]);
      var g := Merged(E, f, a[0], a[1]);
      assert a[1] !in g && PlainNames(g);
    } else {
      forall g | PlainNames(g) && Input(E, g) == Input(E, f) ensures g == f {
        InputCut(E, f, g);
        OneReads(E, f, g, a, Sorted(g.Keys));
        SameFiles(f, g, a);
      }
    }
  }

  // ---- with the same scenario document ----

  /** Two neighbours in the order of the names, neither of them the document. */
  predicate Neighbours(f: Files, i: nat) {
    var a := Sorted(f.Keys);
    i + 1 < |a| && a[i] != DOCUMENT && a[i + 1] != DOCUMENT
  }

  lemma DocumentSplits(names: seq<string>, d: string) returns (i: nat)
    requires StrictlySorted(names) && d in names
    ensures i < |names| && names == names[..i] + ([d] + names[i + 1..]) && names[i] == d
    ensures forall k | 0 <= k < |names| && k != i :: names[k] != d
  {
    i :| i < |names| && names[i] == d;
    LessIrreflexive(d);
  }

  /** Where the document's two pieces are, the one list has its document and the other has none
      of its names. */
  lemma DocumentInPlace(E: Encoding, f: Files, pre: seq<string>, post: seq<string>, d: string, x: seq<Data>, y: seq<Data>, c: Data)
    requires E.Sane() && (forall n | n in pre :: n in f && n != d) && (forall n | n in post :: n in f && n != d)
    requires |pre| <= 1 && |post| <= 1 && |x| != 1 && |y| != 1
    requires Pieces(E, f, pre) + ([E.utf8(d), c] + Pieces(E, f, post)) == x + ([E.utf8(d), c] + y)
    ensures Pieces(E, f, pre) == x && Pieces(E, f, post) == y
  {
    TwoPerName(E, f, pre);
    TwoPerName(E, f, post);
    var all := x + ([E.utf8(d), c] + y);
    var p, q := Pieces(E, f, pre), Pieces(E, f, post);
    assert all[|x|] == E.utf8(d);
    if |pre| == 1 { assert pre[0] in pre && all[0] == p[0] == E.utf8(pre[0]); }
    if |post| == 1 { assert post[0] in post && all[|p| + 2] == q[0] == E.utf8(post[0]); }
    assert |x| == |p|;
    assert p == all[..|p|] == x;
    assert q == all[|p| + 2..] == y;
  }

  /** The cut pieces around the document. */
  lemma CutAround(E: Encoding, g: Files, x: seq<string>, d: string, y: seq<string>)
    requires d in g && Zeroless(g[d]) && (forall n | n in x :: n in g) && (forall n | n in y :: n in g)
    ensures forall n | n in x + ([d] + y) :: n in g
    ensures CutPieces(E, g, x + ([d] + y)) == CutPieces(E, g, x) + ([E.utf8(d), g[d]] + CutPieces(E, g, y))
    ensures |CutPieces(E, g, x)| != 1 && |CutPieces(E, g, y)| != 1
  {
    hide CutPieces, Zeroless, Cut;
    CutBoth(E, g, [d], y);
    CutBoth(E, g, x, [d] + y);
    CutNext(E, g, d, []);
    NoneCut(E, g);
    CutOnce(g[d]);
    assert [d] + [] == [d] && [E.utf8(d)] + [g[d]] + [] == [E.utf8(d), g[d]];
  }

  lemma PiecesAround(E: Encoding, f: Files, x: seq<string>, d: string, y: seq<string>)
    requires d in f && (forall n | n in x :: n in f) && (forall n | n in y :: n in f)
    ensures forall n | n in x + ([d] + y) :: n in f
    ensures Pieces(E, f, x + ([d] + y)) == Pieces(E, f, x) + ([E.utf8(d), f[d]] + Pieces(E, f, y))
  {
    hide Pieces;
    PiecesBoth(E, f, [d], y);
    PiecesBoth(E, f, x, [d] + y);
    OneFile(E, f, d);
  }

  lemma AroundDocument(f: Files) returns (pre: seq<string>, post: seq<string>)
    requires DOCUMENT in f
    ensures Sorted(f.Keys) == pre + ([DOCUMENT] + post)
    ensures forall n | n in pre || n in post :: n in f && n != DOCUMENT
    ensures (forall i: nat :: !Neighbours(f, i)) ==> |pre| <= 1 && |post| <= 1
  {
    hide StrictlySorted;
    var a := Sorted(f.Keys);
    assert DOCUMENT in a;
    var i := DocumentSplits(a, DOCUMENT);
    pre, post := a[..i], a[i + 1..];
    forall n | n in pre || n in post ensures n in f && n != DOCUMENT { assert n in a; }
    assert |pre| > 1 ==> Neighbours(f, 0);
    assert |post| > 1 ==> Neighbours(f, i + 1);
  }

  lemma ReadAround(E: Encoding, f: Files, g: Files, pre: seq<string>, post: seq<string>, x: seq<string>, y: seq<string>, d: string)
    requires E.Sane() && d in f && d in g && g[d] == f[d] && Zeroless(f[d]) && |pre| <= 1 && |post| <= 1
    requires forall n | n in pre || n in post :: n in f && n != d
    requires forall n | n in x || n in y :: n in g && n != d
    requires forall n | n in pre + ([d] + post) :: n in f
    requires forall n | n in x + ([d] + y) :: n in g
    requires Pieces(E, f, pre + ([d] + post)) == CutPieces(E, g, x + ([d] + y))
    ensures pre == x && post == y && forall n | n in pre + ([d] + post) :: n in f && n in g && f[n] == g[n]
  {
    hide Encoding.Sane, Zeroless, Pieces, CutPieces;
    PiecesAround(E, f, pre, d, post);
    CutAround(E, g, x, d, y);
    DocumentInPlace(E, f, pre, post, d, CutPieces(E, g, x), CutPieces(E, g, y), f[d]);
    OneReads(E, f, g, pre, x);
    OneReads(E, f, g, post, y);
  }

  /** Without two such neighbours every package with the same input and document is the same. */
  lemma ReadBack(E: Encoding, f: Files, g: Files)
    requires E.Sane() && Plain(f) && PlainNames(g) && DOCUMENT in f && DOCUMENT in g && g[DOCUMENT] == f[DOCUMENT]
    requires Input(E, g) == Input(E, f) && forall i: nat :: !Neighbours(f, i)
    ensures g == f
  {
    hide Input, Encoding.Sane, Zeroless, Pieces, CutPieces, Neighbours, DOCUMENT, StrictlySorted;
    InputCut(E, f, g);
    var pre, post := AroundDocument(f);
    var x, y := AroundDocument(g);
    ReadAround(E, f, g, pre, post, x, y, DOCUMENT);
    SameFiles(f, g, pre + ([DOCUMENT] + post));
  }

  /** A package without NUL shares its input with another one that has the same scenario
      document, exactly if two of its other files are neighbours in the order of the names. */
  lemma SharedWithDocumentExact(E: Encoding, f: Files)
    requires E.Sane() && Plain(f) && DOCUMENT in f
    ensures (exists g :: g != f && PlainNames(g) && DOCUMENT in g && g[DOCUMENT] == f[DOCUMENT] && Input(E, g) == Input(E, f))
         <==> (exists i: nat :: Neighbours(f, i))
  {
    hide Input, Encoding.Sane, Zeroless, DOCUMENT, Merged, StrictlySorted;
    if i: nat :| Neighbours(f, i) {
      var a := Sorted(f.Keys);
      MergedSame(E, f, i);
      MergedFiles(E, f, a[i], a[i + 1]);
      var g := Merged(E, f, a[i], a[i + 1]);
      assert a[i + 1] !in g && PlainNames(g);
    } else {
      forall g | PlainNames(g) && DOCUMENT in g && g[DOCUMENT] == f[DOCUMENT] && Input(E, g) == Input(E, f) ensures g == f {
        ReadBack(E, f, g);
      }
    }
  }

  // ---- what is hashed ----

  /** One more file, behind all others by name, is its name, a zero byte, its content and a zero byte behind
      what was there; and nothing is hashed of no files. */
  lemma InputExact(E: Encoding, files: Files, name: string, content: Data)
    requires forall n | n in files :: Less(n, name)
    ensures Input(E, map[]) == []
    ensures Input(E, files[name := content]) == Input(E, files) + E.utf8(name) + [0] + content + [0]
  {
    hide Less, Sorted, StrictlySorted, Pieces, Closed;
    var names, more := Sorted(files.Keys), files[name := content];
    LessIrreflexive(name);
    LastName(files.Keys, name);
    assert more.Keys == files.Keys + {name};
    PiecesBoth(E, more, names, [name]);
    SamePieces(E, files, more, names);
    ClosedBoth(Pieces(E, files, names), [E.utf8(name), content]);
    OnePair(E, more, name);
    var before := Closed(Pieces(E, files, names));
    assert before + (E.utf8(name) + [0] + content + [0]) == before + E.utf8(name) + [0] + content + [0];
    NothingHashed(E);
  }

  lemma NothingHashed(E: Encoding)
    ensures Input(E, map[]) == []
  {}

  lemma OnePair(E: Encoding, files: Files, name: string)
    requires name in files
    ensures Pieces(E, files, [name]) == [E.utf8(name), files[name]]
    ensures Closed([E.utf8(name), files[name]]) == E.utf8(name) + [0] + files[name] + [0]
  {
    var two, one := [E.utf8(name), files[name]], [files[name]];
    assert [name][1..] == [] && two[1..] == one && one[1..] == [];
    assert Closed(one) == files[name] + ZERO + [];
    assert two[0] + ZERO + (files[name] + ZERO + []) == E.utf8(name) + [0] + files[name] + [0];
  }

  lemma LastName(keys: set<string>, name: string)
    requires name !in keys && forall n | n in keys :: Less(n, name)
    ensures Sorted(keys + {name}) == Sorted(keys) + [name]
  {
    hide Less, StrictlySorted;
    var names := Sorted(keys);
    Behind(names, name);
    SortedUnique(Sorted(keys + {name}), names + [name]);
  }

  lemma Behind(names: seq<string>, name: string)
    requires StrictlySorted(names) && forall n | n in names :: Less(n, name)
    ensures StrictlySorted(names + [name])
  {
    hide Less;
    forall i, j | 0 <= i < j < |names + [name]| ensures Less((names + [name])[i], (names + [name])[j]) {
      assert names[i] in names;
    }
  }
}
