/** Copying and moving subtrees: what CopyRecursive amounts to when source and
    target do not overlap, and what it conserves. */
module FileMoves {
  import opened Text
  import opened Paths
  import opened Host
  import opened FileTree

  // ---- moving one path ----

  /** The path that corresponds to `k` when `src` is renamed to `dst`. */
  function Renamed(src: string, dst: string, k: string): string
    requires Under(src, k)
  {
    assert src <= k;
    dst + k[|src|..]
  }

  lemma RenamedRender(a: seq<string>, b: seq<string>, t: seq<string>)
    requires ValidParts(a) && ValidParts(b) && ValidParts(t) && a != [] && b != []
    ensures Under(Render(a), Render(a + t)) && Render(a) <= Render(a + t)
    ensures Renamed(Render(a), Render(b), Render(a + t)) == Render(b + t)
    ensures Clean(Render(b) + "/" + Render(a + t)[|Render(a)|..]) == Render(b + t)
  {
    UnderRender(a, a + t);
    RelocateRender(a, b, t);
  }

  lemma BelowSource(src: string, k: string) returns (t: seq<string>)
    requires Canonical(src) && Canonical(k) && Under(src, k)
    ensures ValidParts(t) && Parts(k) == Parts(src) + t
  {
    hide Under, Parts, Render, ValidPart;
    UnderParts(src, k);
    t := Parts(k)[|Parts(src)|..];
    assert forall x | x in t :: x in Parts(k);
  }

  lemma NonRootParts(p: string)
    requires Canonical(p)
    ensures p != "/" <==> Parts(p) != []
  {
    RootParts();
    UnderParts(p, "/");
  }

  lemma RenamedMeaning(src: string, dst: string, k: string)
    requires Canonical(src) && Canonical(dst) && Canonical(k) && src != "/" && dst != "/" && Under(src, k)
    ensures src <= k && Clean(dst + "/" + k[|src|..]) == Renamed(src, dst, k)
    ensures Canonical(Renamed(src, dst, k)) && Under(dst, Renamed(src, dst, k))
    ensures Renamed(dst, src, Renamed(src, dst, k)) == k
    ensures Parts(src) <= Parts(k) && Parts(Renamed(src, dst, k)) == Parts(dst) + Parts(k)[|Parts(src)|..]
    ensures Renamed(src, dst, k) != "/"
  {
    assert Parts(src) != [] && Parts(dst) != [] by {
      NonRootParts(src);
      NonRootParts(dst);
    }
    var t := BelowSource(src, k);
    var r := Renamed(src, dst, k);
    assert Clean(dst + "/" + k[|src|..]) == r && Canonical(r) && Under(dst, r) && Parts(r) == Parts(dst) + t && r != "/" by {
      RenamedForward(src, dst, k, t);
    }
    assert Renamed(dst, src, r) == k by { RenamedBack(src, dst, k, r); }
  }

  lemma RenamedBack(src: string, dst: string, k: string, r: string)
    requires Under(src, k) && Under(dst, r) && r == Renamed(src, dst, k)
    ensures Renamed(dst, src, r) == k
  {
    assert src <= k && r[|dst|..] == k[|src|..];
  }

  lemma RenamedForward(src: string, dst: string, k: string, t: seq<string>)
    requires Canonical(src) && Canonical(dst) && Parts(src) != [] && Parts(dst) != []
    requires Canonical(k) && ValidParts(t) && Parts(k) == Parts(src) + t
    ensures Under(src, k)
    ensures src <= k && Clean(dst + "/" + k[|src|..]) == Renamed(src, dst, k)
    ensures Renamed(src, dst, k) == Render(Parts(dst) + t)
    ensures Canonical(Renamed(src, dst, k)) && Parts(Renamed(src, dst, k)) == Parts(dst) + t
    ensures Renamed(src, dst, k) != "/" && Under(dst, Renamed(src, dst, k))
  {
    ghost var a, b := Parts(src), Parts(dst);
    RenamedRender(a, b, t);
    PartsRender(b + t);
    UnderRender(b, b + t);
    NonRootParts(Render(b + t));
  }

  lemma RenamedSource(src: string, dst: string)
    requires Canonical(src)
    ensures Under(src, src) && Renamed(src, dst, src) == dst
  {
    assert src[|src|..] == "";
    assert dst + "" == dst;
  }

  lemma DropLastConcat(a: seq<string>, t: seq<string>)
    requires t != []
    ensures (a + t)[..|a + t| - 1] == a + t[..|t| - 1]
  {}

  lemma DirAppend(b: seq<string>, t: seq<string>)
    requires ValidParts(b + t) && t != []
    ensures Dir(Render(b + t)) == Render(b + t[..|t| - 1])
  {
    DropLastConcat(b, t);
    DirRender(b + t);
  }

  lemma RenamedParent(src: string, dst: string, k: string)
    requires Canonical(src) && Canonical(dst) && Canonical(k) && src != "/" && dst != "/" && Under(src, k)
    requires k != src
    ensures k != "/" && Canonical(Dir(k)) && Under(src, Dir(k))
    ensures Dir(Renamed(src, dst, k)) == Renamed(src, dst, Dir(k))
  {
    var t := BelowSource(src, k);
    assert t != [] by { UnderParts(src, k); }
    assert Parts(src) != [] && Parts(dst) != [] && k != "/" by {
      NonRootParts(src);
      NonRootParts(dst);
      NonRootParts(k);
    }
    var u := t[..|t| - 1];
    assert forall x | x in u :: x in t;
    assert Canonical(Dir(k)) && Parts(Dir(k)) == Parts(src) + u by {
      ParentOf(k);
      DropLastConcat(Parts(src), t);
    }
    assert Renamed(src, dst, k) == Render(Parts(dst) + t) by { RenamedForward(src, dst, k, t); }
    assert Under(src, Dir(k)) && Renamed(src, dst, Dir(k)) == Render(Parts(dst) + u) by {
      RenamedForward(src, dst, Dir(k), u);
    }
    DirAppend(Parts(dst), t);
  }

  // ---- the copying loop ----

  /** Neither path is inside the other's subtree. */
  ghost predicate Disjoint(src: string, dst: string) { !Under(src, dst) && !Under(dst, src) }

  /** `k` is where some entry of the subtree of `src` lands. */
  predicate Lands(files: Files, src: string, dst: string, k: string) {
    Under(dst, k) && Under(src, Renamed(dst, src, k)) && Renamed(dst, src, k) in files
  }

  ghost function Before(files: Files, n: string): set<string> { set k | k in files && Less(k, n) }

  lemma BeforeShrinks(files: Files, m: string, n: string)
    requires m in files && Less(m, n)
    ensures Before(files, m) < Before(files, n)
  {
    hide Less;
    forall k | k in Before(files, m) ensures Less(k, n) { LessTransitive(k, m, n); }
    LessIrreflexive(m);
    assert m in Before(files, n) && m !in Before(files, m);
  }

  /** The entry that the loop finds under `n` in its turn: the old one, or the one that an
      earlier turn has written there. The loop reads the map it writes. */
  ghost function Carried(files: Files, src: string, dst: string, n: string): File
    requires n in files
    decreases Before(files, n)
  {
    if Lands(files, src, dst, n) && Less(Renamed(dst, src, n), n) then
      BeforeShrinks(files, Renamed(dst, src, n), n);
      Carried(files, src, dst, Renamed(dst, src, n))
    else files[n]
  }

  /** The map with every entry of the subtree, as the loop finds it, where it lands. */
  ghost function Copied(files: Files, src: string, dst: string): Files {
    var landing := set k | k in files && Under(src, k) :: Renamed(src, dst, k);
    map k | k in files.Keys + landing ::
      if Lands(files, src, dst, k) then Carried(files, src, dst, Renamed(dst, src, k)).(path := k)
      else if k in files then files[k] else ZERO_FILE
  }

  lemma LandsAt(files: Files, src: string, dst: string, k: string)
    requires Canonical(src) && Canonical(dst) && src != "/" && dst != "/"
    requires forall n | n in files :: Canonical(n)
    requires Lands(files, src, dst, k)
    ensures Renamed(src, dst, Renamed(dst, src, k)) == k && Canonical(k)
  {
    var n := Renamed(dst, src, k);
    RenamedBack(dst, src, k, n);
    RenamedMeaning(src, dst, n);
  }

  lemma CopiedMeaning(files: Files, src: string, dst: string, k: string)
    requires Canonical(src) && Canonical(dst) && src != "/" && dst != "/"
    requires forall n | n in files :: Canonical(n)
    ensures k in Copied(files, src, dst) <==> k in files || Lands(files, src, dst, k)
    ensures Lands(files, src, dst, k) ==>
              Canonical(k) && Copied(files, src, dst)[k] == Carried(files, src, dst, Renamed(dst, src, k)).(path := k)
    ensures k in files && !Lands(files, src, dst, k) ==> Copied(files, src, dst)[k] == files[k]
  {
    hide Carried, Canonical, Under, Renamed;
    if Lands(files, src, dst, k) { LandsAt(files, src, dst, k); }
    forall n | n in files && Under(src, n)
      ensures Lands(files, src, dst, Renamed(src, dst, n))
    {
      RenamedMeaning(src, dst, n);
    }
  }

  /** One of these names lands on `k`. */
  ghost predicate LandedBy(names: seq<string>, src: string, dst: string, k: string) {
    Under(dst, k) && Under(src, Renamed(dst, src, k)) && Renamed(dst, src, k) in names
  }

  /** The map at `k` after the turns of the names in `done`. */
  ghost predicate ProgressAt(files: Files, acc: Files, done: seq<string>, src: string, dst: string, k: string)
    requires forall n | n in done :: n in files
  {
    && (k in acc <==> k in files || LandedBy(done, src, dst, k))
    && (LandedBy(done, src, dst, k) ==> acc[k] == Carried(files, src, dst, Renamed(dst, src, k)).(path := k))
    && (k in files && !LandedBy(done, src, dst, k) ==> acc[k] == files[k])
  }

  ghost predicate Progress(files: Files, acc: Files, done: seq<string>, src: string, dst: string)
    requires forall n | n in done :: n in files
  {
    forall k :: ProgressAt(files, acc, done, src, dst, k)
  }

  /** The subtree's names, in the loop's order. */
  ghost predicate SubtreeNames(files: Files, names: seq<string>, src: string) {
    && StrictlySorted(names)
    && (forall n :: n in names <==> n in files && Under(src, n))
    && (forall n | n in names :: Canonical(n) && src <= n)
  }

  lemma EarlierName(names: seq<string>, i: nat, m: string)
    requires StrictlySorted(names) && i < |names| && m in names
    ensures m in names[..i] <==> Less(m, names[i])
  {
    var j :| 0 <= j < |names| && names[j] == m;
    if j >= i && Less(m, names[i]) {
      if j > i { LessTransitive(names[i], names[j], names[i]); }
      LessIrreflexive(names[i]);
    }
    if j < i { assert names[..i][j] == m; }
    if m in names[..i] {
      var l :| 0 <= l < i && names[..i][l] == m;
      assert names[l] == m;
    }
  }

  /** What the loop reads in the turn of the `i`-th name. */
  lemma ReadInTurn(files: Files, acc: Files, names: seq<string>, i: nat, src: string, dst: string)
    requires SubtreeNames(files, names, src) && i < |names| && (forall n | n in names[..i] :: n in files)
    requires Progress(files, acc, names[..i], src, dst)
    ensures names[i] in acc && names[i] in files
    ensures acc[names[i]].(path := "") == Carried(files, src, dst, names[i]).(path := "")
  {
    hide Canonical, Under, Renamed, Less, StrictlySorted;
    var n := names[i];
    assert n in names;
    assert ProgressAt(files, acc, names[..i], src, dst, n);
    if Lands(files, src, dst, n) { EarlierName(names, i, Renamed(dst, src, n)); }
    assert forall x | x in names[..i] :: x in names;
  }

  lemma ProgressNext(files: Files, acc: Files, names: seq<string>, i: nat, src: string, dst: string)
    requires Canonical(src) && Canonical(dst) && src != "/" && dst != "/"
    requires SubtreeNames(files, names, src) && i < |names|
    requires (forall n | n in names[..i] :: n in files) && (forall n | n in names[..i + 1] :: n in files)
    requires Progress(files, acc, names[..i], src, dst)
    ensures names[i] in acc && Under(src, names[i])
    ensures var key := Renamed(src, dst, names[i]);
            Progress(files, acc[key := acc[names[i]].(path := key)], names[..i + 1], src, dst)
  {
    hide Canonical, Under, Renamed, StrictlySorted, Carried, LandedBy;
    var n := names[i];
    assert n in names;
    ReadInTurn(files, acc, names, i, src, dst);
    RenamedMeaning(src, dst, n);
    var key := Renamed(src, dst, n);
    var next := acc[key := acc[n].(path := key)];
    var done := names[..i + 1];
    forall k ensures ProgressAt(files, next, done, src, dst, k) {
      assert ProgressAt(files, acc, names[..i], src, dst, k);
      LandedNext(names, i, src, dst, k);
    }
  }

  lemma LandedNext(names: seq<string>, i: nat, src: string, dst: string, k: string)
    requires Canonical(src) && Canonical(dst) && src != "/" && dst != "/"
    requires i < |names| && Canonical(names[i]) && Under(src, names[i])
    ensures LandedBy(names[..i + 1], src, dst, k) <==> LandedBy(names[..i], src, dst, k) || k == Renamed(src, dst, names[i])
    ensures k == Renamed(src, dst, names[i]) ==> Under(dst, k) && Renamed(dst, src, k) == names[i]
  {
    hide Canonical, Under, Renamed;
    RenamedMeaning(src, dst, names[i]);
    assert names[..i + 1] == names[..i] + [names[i]];
    if Under(dst, k) && Under(src, Renamed(dst, src, k)) && Renamed(dst, src, k) == names[i] { RenamedBack(dst, src, k, names[i]); }
  }

  /** One round of the loop writes where the entry lands. */
  lemma CopyRound(acc: Files, names: seq<string>, src: string, dst: string)
    requires Canonical(src) && Canonical(dst) && src != "/" && dst != "/" && names != []
    requires Canonical(names[0]) && Under(src, names[0])
    requires forall n | n in names :: n in acc && src <= n
    ensures var key := Renamed(src, dst, names[0]);
            && (forall n | n in names[1..] :: n in acc && src <= n)
            && names[0] in names
            && CopyEntries(acc, names, src, dst)
            == CopyEntries(acc[key := acc[names[0]].(path := key)], names[1..], src, dst)
  {
    assert names[0] in names && forall n | n in names[1..] :: n in names;
    RenamedMeaning(src, dst, names[0]);
  }

  lemma {:induction false} CopyEntriesMeaning(files: Files, acc: Files, names: seq<string>, i: nat, src: string, dst: string)
    requires Canonical(src) && Canonical(dst) && src != "/" && dst != "/"
    requires SubtreeNames(files, names, src) && i <= |names| && (forall n | n in names[..i] :: n in files)
    requires Progress(files, acc, names[..i], src, dst)
    ensures (forall n | n in names[i..] :: n in acc && src <= n) && (forall n | n in names :: n in files)
    ensures Progress(files, CopyEntries(acc, names[i..], src, dst), names, src, dst)
    decreases |names| - i
  {
    hide Canonical, Under, Renamed, StrictlySorted, CopyEntries;
    assert forall n | n in names[i..] :: n in names;
    assert forall n | n in names :: n in files && src <= n;
    forall n | n in names[i..] ensures n in acc { assert ProgressAt(files, acc, names[..i], src, dst, n); }
    if i < |names| {
      var n := names[i];
      assert n in names && names[i..][0] == n && names[i..][1..] == names[i + 1..];
      assert forall x | x in names[..i + 1] :: x in names;
      ProgressNext(files, acc, names, i, src, dst);
      var key := Renamed(src, dst, n);
      CopyEntriesMeaning(files, acc[key := acc[n].(path := key)], names, i + 1, src, dst);
      CopyRound(acc, names[i..], src, dst);
    } else {
      assert names[..i] == names;
      NoTurns(acc, names[i..], src, dst);
    }
  }

  lemma NoTurns(acc: Files, names: seq<string>, src: string, dst: string)
    requires names == []
    ensures CopyEntries(acc, names, src, dst) == acc
  {}

  /** CopyRecursive's loop over the sorted subtree, wherever the target is. */
  lemma CopyIsCopied(files: Files, src: string, dst: string)
    requires Canonical(src) && Canonical(dst) && src != "/" && dst != "/"
    requires forall n | n in files :: Canonical(n)
    requires forall n | n in Sorted(SubtreeKeys(files, src)) :: n in files && src <= n
    ensures CopyEntries(files, Sorted(SubtreeKeys(files, src)), src, dst) == Copied(files, src, dst)
  {
    hide CopyEntries, Copied, Canonical, Renamed, Under, Carried, StrictlySorted;
    var names := Sorted(SubtreeKeys(files, src));
    assert forall n :: n in names <==> n in SubtreeKeys(files, src);
    assert names[0..] == names && names[..0] == [];
    CopyEntriesMeaning(files, files, names, 0, src, dst);
    ProgressIsCopied(files, CopyEntries(files, names, src, dst), names, src, dst);
  }

  lemma ProgressIsCopied(files: Files, after: Files, names: seq<string>, src: string, dst: string)
    requires Canonical(src) && Canonical(dst) && src != "/" && dst != "/"
    requires (forall n | n in files :: Canonical(n)) && SubtreeNames(files, names, src) && (forall n | n in names :: n in files)
    requires Progress(files, after, names, src, dst)
    ensures after == Copied(files, src, dst)
  {
    hide Copied, Canonical, Renamed, Under, Carried, StrictlySorted;
    var c := Copied(files, src, dst);
    forall k
      ensures k in after <==> k in c
      ensures k in after ==> after[k] == c[k]
    {
      assert ProgressAt(files, after, names, src, dst, k);
      CopiedMeaning(files, src, dst, k);
    }
    assert after.Keys == c.Keys;
  }

  lemma NothingBelowRegular(files: Files, src: string, k: string)
    requires TreeInv(files) && src in files && !files[src].directory && k in files && Under(src, k)
    ensures k == src
  {
    TreeKeys(files);
    AncestorsPresent(files, k, src);
  }

  /** A file with nothing below it: the one write is the loop's result too. */
  lemma SingleIsCopied(files: Files, src: string, dst: string)
    requires Canonical(src) && Canonical(dst) && src != "/" && dst != "/" && dst != src
    requires forall n | n in files :: Canonical(n)
    requires src in files && forall n | n in files && Under(src, n) :: n == src
    ensures files[dst := files[src].(path := dst)] == Copied(files, src, dst)
  {
    hide Copied, Canonical;
    var r := files[dst := files[src].(path := dst)];
    var c := Copied(files, src, dst);
    forall k
      ensures k in r <==> k in c
      ensures k in r ==> r[k] == c[k]
    {
      CopiedMeaning(files, src, dst, k);
      if Under(dst, k) && Under(src, Renamed(dst, src, k)) && Renamed(dst, src, k) in files {
        assert Renamed(dst, src, k) == src;
        assert k == dst + src[|src|..] == dst;
      }
      if k == dst { assert Renamed(dst, src, dst) == src; }
      if Lands(files, src, dst, src) { RenamedBack(dst, src, src, src); }
    }
    assert r.Keys == c.Keys;
  }

  // ---- targets outside the source ----

  /** The subtree of `src` written over the subtree of `dst`. */
  function Overlay(files: Files, src: string, dst: string): Files {
    var landing := set k | k in files && Under(src, k) :: Renamed(src, dst, k);
    map k | k in files.Keys + landing ::
      if Lands(files, src, dst, k) then files[Renamed(dst, src, k)].(path := k)
      else if k in files then files[k] else ZERO_FILE
  }

  lemma OverlayMeaning(files: Files, src: string, dst: string, k: string)
    requires Canonical(src) && Canonical(dst) && src != "/" && dst != "/"
    requires forall n | n in files :: Canonical(n)
    ensures k in Overlay(files, src, dst) <==> k in files || Lands(files, src, dst, k)
    ensures Lands(files, src, dst, k) ==>
              Canonical(k) && Overlay(files, src, dst)[k] == files[Renamed(dst, src, k)].(path := k)
    ensures k in files && !Lands(files, src, dst, k) ==> Overlay(files, src, dst)[k] == files[k]
  {
    if Lands(files, src, dst, k) { LandsAt(files, src, dst, k); }
    forall n | n in files && Under(src, n)
      ensures Lands(files, src, dst, Renamed(src, dst, n))
    {
      RenamedMeaning(src, dst, n);
    }
  }

  /** Apart from the source the loop overtakes nothing: it writes the old subtree over the target. */
  lemma CopiedIsOverlay(files: Files, src: string, dst: string)
    requires Canonical(src) && Canonical(dst) && src != "/" && dst != "/" && Disjoint(src, dst)
    requires forall n | n in files :: Canonical(n)
    ensures Copied(files, src, dst) == Overlay(files, src, dst)
  {
    hide Copied, Overlay, Canonical, Under, Renamed;
    forall k
      ensures k in Copied(files, src, dst) <==> k in Overlay(files, src, dst)
      ensures k in Copied(files, src, dst) ==> Copied(files, src, dst)[k] == Overlay(files, src, dst)[k]
    {
      CopiedMeaning(files, src, dst, k);
      OverlayMeaning(files, src, dst, k);
      if Lands(files, src, dst, k) { NotOvertaken(files, src, dst, Renamed(dst, src, k)); }
    }
    assert Copied(files, src, dst).Keys == Overlay(files, src, dst).Keys;
  }

  lemma NotOvertaken(files: Files, src: string, dst: string, n: string)
    requires Canonical(src) && Canonical(dst) && Canonical(n) && Disjoint(src, dst) && n in files && Under(src, n)
    ensures Carried(files, src, dst, n) == files[n]
  {
    hide Canonical, Under, Renamed;
    if Under(dst, n) { UnderLinear(src, dst, n); }
  }

  // ---- the tree after a copy ----

  /** The map that the operation leaves. */
  ghost function CopyResult(files: Files, src: string, dst: string, move: bool): Files {
    if move then WithoutSubtree(Copied(files, src, dst), src) else Copied(files, src, dst)
  }

  /** What stays when the source goes. */
  ghost predicate Stays(src: string, move: bool, k: string) { !(move && Under(src, k)) }

  /** Where a regular file comes to lie nothing may be below it: neither an old entry nor
      one that is copied along, apart from a moved source itself. */
  ghost predicate RoomFor(files: Files, src: string, dst: string, move: bool) {
    forall n | n in files && Under(src, n) && !Carried(files, src, dst, n).directory && Stays(src, move, Renamed(src, dst, n)) ::
      && (forall k | k in files && k != "/" && Dir(k) == Renamed(src, dst, n) :: move && k == src)
      && (forall k | k in files && k != "/" && Dir(k) == n :: Under(src, k) && move && Renamed(src, dst, k) == src)
  }

  lemma CopyResultMeaning(files: Files, src: string, dst: string, move: bool, k: string)
    requires Canonical(src) && Canonical(dst) && src != "/" && dst != "/"
    requires forall n | n in files :: Canonical(n)
    ensures k in CopyResult(files, src, dst, move) <==> (k in files || Lands(files, src, dst, k)) && Stays(src, move, k)
    ensures Stays(src, move, k) && Lands(files, src, dst, k) ==>
              Canonical(k) && CopyResult(files, src, dst, move)[k] == Carried(files, src, dst, Renamed(dst, src, k)).(path := k)
    ensures k in files && Stays(src, move, k) && !Lands(files, src, dst, k) ==> CopyResult(files, src, dst, move)[k] == files[k]
  {
    hide Copied, Carried, Canonical, Under, Renamed, Lands;
    CopiedMeaning(files, src, dst, k);
  }

  /** A landed entry other than the target itself has its parent landed too. */
  lemma LandedParent(files: Files, src: string, dst: string, k: string)
    requires TreeInv(files) && src in files && Canonical(dst) && src != "/" && dst != "/"
    requires Lands(files, src, dst, k) && k != dst
    ensures Canonical(k) && k != "/" && Lands(files, src, dst, Dir(k))
    ensures Renamed(dst, src, k) != "/" && Under(src, Dir(Renamed(dst, src, k)))
    ensures Dir(Renamed(dst, src, k)) in files && Renamed(dst, src, Dir(k)) == Dir(Renamed(dst, src, k))
  {
    hide Renamed;
    TreeKeys(files);
    LandsAt(files, src, dst, k);
    var n := Renamed(dst, src, k);
    if n == src { RenamedSource(src, dst); }
    RenamedMeaning(src, dst, n);
    RenamedParent(src, dst, n);
    RenamedParent(dst, src, k);
    assert Placed(files, n);
  }

  lemma TargetParentStays(files: Files, src: string, dst: string)
    requires Canonical(dst) && dst != "/"
    ensures !Lands(files, src, dst, Dir(dst))
  {
    ParentOf(dst);
  }

  lemma StaysAbove(src: string, move: bool, k: string)
    requires Canonical(src) && Canonical(k) && k != "/" && Stays(src, move, k)
    ensures Stays(src, move, Dir(k))
  {
    ParentOf(k);
    UnderOfParent(src, k);
  }

  /** Whatever lands has a source that lands there. */
  lemma LandedFrom(files: Files, src: string, dst: string, k: string)
    requires Canonical(src) && Canonical(dst) && src != "/" && dst != "/" && (forall n | n in files :: Canonical(n))
    requires Lands(files, src, dst, k)
    ensures Under(dst, k) && var n := Renamed(dst, src, k); n in files && Under(src, n) && Renamed(src, dst, n) == k
  {
    LandsAt(files, src, dst, k);
  }

  lemma DirectoryAbove(files: Files, src: string, dst: string, move: bool, k: string)
    requires TreeInv(files) && src in files && Canonical(src) && Canonical(dst) && src != "/" && dst != "/"
    requires Dir(dst) in files && files[Dir(dst)].directory && RoomFor(files, src, dst, move)
    requires Canonical(k) && k != "/" && k in CopyResult(files, src, dst, move)
    ensures Dir(k) in CopyResult(files, src, dst, move) && CopyResult(files, src, dst, move)[Dir(k)].directory
  {
    hide Canonical, Under, Renamed, Lands, Carried, CopyResult, TreeInv, Dir;
    TreeKeys(files);
    var d := Dir(k);
    CopyResultMeaning(files, src, dst, move, k);
    StaysAbove(src, move, k);
    CopyResultMeaning(files, src, dst, move, d);
    TargetParentStays(files, src, dst);
    if Lands(files, src, dst, k) && k != dst { LandedParent(files, src, dst, k); }
    if k in files { ParentInTree(files, k); }
    SourceGoes(src, move);
    if Lands(files, src, dst, d) {
      LandedFrom(files, src, dst, d);
      var n := Renamed(dst, src, d);
      if !Carried(files, src, dst, n).directory {
        if k !in files { LandedFrom(files, src, dst, k); }
      }
    }
  }

  lemma SourceGoes(src: string, move: bool)
    ensures move ==> !Stays(src, move, src)
  {}

  lemma ParentInTree(files: Files, k: string)
    requires TreeInv(files) && k in files && k != "/"
    ensures Dir(k) in files && files[Dir(k)].directory
  {
    assert Placed(files, k);
  }

  lemma RootStays(files: Files, src: string, dst: string, move: bool)
    requires TreeInv(files) && Canonical(src) && Canonical(dst) && src != "/" && dst != "/"
    ensures "/" in CopyResult(files, src, dst, move) && CopyResult(files, src, dst, move)["/"].directory
  {
    TreeKeys(files);
    RootParts();
    NonRootParts(dst);
    NonRootParts(src);
    UnderParts(dst, "/");
    UnderParts(src, "/");
    CopyResultMeaning(files, src, dst, move, "/");
  }

  lemma RoomKeepsTree(files: Files, src: string, dst: string, move: bool)
    requires TreeInv(files) && src in files && Canonical(src) && Canonical(dst) && src != "/" && dst != "/"
    requires Dir(dst) in files && files[Dir(dst)].directory && RoomFor(files, src, dst, move)
    ensures TreeInv(CopyResult(files, src, dst, move))
  {
    hide Canonical, Under, Renamed, Lands, Carried, CopyResult, RoomFor, Dir;
    TreeKeys(files);
    RootStays(files, src, dst, move);
    var after := CopyResult(files, src, dst, move);
    forall k | k in after ensures Placed(after, k) {
      CopyResultMeaning(files, src, dst, move, k);
      if k in files { assert Placed(files, k); }
      if k != "/" { DirectoryAbove(files, src, dst, move, k); }
    }
  }

  lemma TreeNeedsRoom(files: Files, src: string, dst: string, move: bool, n: string)
    requires TreeInv(files) && src in files && Canonical(src) && Canonical(dst) && src != "/" && dst != "/"
    requires TreeInv(CopyResult(files, src, dst, move))
    requires n in files && Under(src, n) && !Carried(files, src, dst, n).directory && Stays(src, move, Renamed(src, dst, n))
    ensures forall k | k in files && k != "/" && Dir(k) == Renamed(src, dst, n) :: move && k == src
    ensures forall k | k in files && k != "/" && Dir(k) == n :: Under(src, k) && move && Renamed(src, dst, k) == src
  {
    hide Canonical, Under, Renamed, Carried, CopyResult, TreeInv, Dir;
    TreeKeys(files);
    var after := CopyResult(files, src, dst, move);
    var r := Renamed(src, dst, n);
    RenamedMeaning(src, dst, n);
    CopyResultMeaning(files, src, dst, move, r);
    assert r in after && !after[r].directory;
    forall k | k in files && k != "/" && Dir(k) == r ensures move && k == src {
      UnderOfParent(src, k);
      CopyResultMeaning(files, src, dst, move, k);
      if k in after { ParentInTree(after, k); }
    }
    forall k | k in files && k != "/" && Dir(k) == n ensures Under(src, k) && move && Renamed(src, dst, k) == src {
      UnderOfParent(src, k);
      ParentNotBelow(src, k);
      RenamedMeaning(src, dst, k);
      RenamedParent(src, dst, k);
      var t := Renamed(src, dst, k);
      UnderOfParent(src, t);
      CopyResultMeaning(files, src, dst, move, t);
      if t in after { ParentInTree(after, t); }
    }
  }

  lemma ParentNotBelow(src: string, k: string)
    requires Canonical(k) && k != "/" && Under(src, Dir(k))
    ensures k != src
  {
    ParentOf(k);
  }

  /** With a directory above the target, a copy or move keeps the tree exactly when there
      is room for the regular files that come to lie somewhere. */
  lemma CopyTreeExact(files: Files, src: string, dst: string, move: bool)
    requires TreeInv(files) && src in files && Canonical(src) && Canonical(dst) && src != "/" && dst != "/"
    requires Dir(dst) in files && files[Dir(dst)].directory
    ensures TreeInv(CopyResult(files, src, dst, move)) <==> RoomFor(files, src, dst, move)
  {
    hide Canonical, Under, Renamed, Carried, CopyResult, TreeInv, Dir;
    if RoomFor(files, src, dst, move) {
      RoomKeepsTree(files, src, dst, move);
    } else if TreeInv(CopyResult(files, src, dst, move)) {
      forall n | n in files && Under(src, n) && !Carried(files, src, dst, n).directory && Stays(src, move, Renamed(src, dst, n))
        ensures forall k | k in files && k != "/" && Dir(k) == Renamed(src, dst, n) :: move && k == src
        ensures forall k | k in files && k != "/" && Dir(k) == n :: Under(src, k) && move && Renamed(src, dst, k) == src
      {
        TreeNeedsRoom(files, src, dst, move, n);
      }
    }
  }

  /** For a target outside the source that means: nothing is below the places where the
      source's regular files land. */
  lemma DisjointRoom(files: Files, src: string, dst: string, move: bool)
    requires TreeInv(files) && src in files && Canonical(dst) && src != "/" && dst != "/" && Disjoint(src, dst)
    ensures RoomFor(files, src, dst, move) <==>
              forall k | k in files && Under(src, k) && !files[k].directory :: !HasChildren(files, Renamed(src, dst, k))
  {
    hide Canonical, Under, Renamed, Carried, Dir, TreeInv;
    TreeKeys(files);
    forall n | n in files && Under(src, n)
      ensures Carried(files, src, dst, n) == files[n] && Stays(src, move, Renamed(src, dst, n))
      ensures !files[n].directory ==> forall k | k in files && k != "/" :: Dir(k) != n
      ensures forall k | k in files && k != "/" && Dir(k) == Renamed(src, dst, n) :: k != src
    {
      NotOvertaken(files, src, dst, n);
      RenamedMeaning(src, dst, n);
      if Under(src, Renamed(src, dst, n)) { UnderLinear(src, dst, Renamed(src, dst, n)); }
      forall k | k in files && k != "/" && Dir(k) == n ensures files[n].directory { ParentInTree(files, k); }
      if Dir(src) == Renamed(src, dst, n) { AboveItself(src, dst, Renamed(src, dst, n)); }
    }
  }

  /** Laid over a target outside the source, a subtree keeps the tree exactly when nothing is
      below the places where its regular files land; taking the source away changes nothing in that. */
  lemma OverlayTreeExact(files: Files, src: string, dst: string, move: bool)
    requires TreeInv(files) && src in files && Canonical(dst) && src != "/" && dst != "/" && Disjoint(src, dst)
    requires Dir(dst) in files && files[Dir(dst)].directory
    ensures TreeInv(if move then WithoutSubtree(Overlay(files, src, dst), src) else Overlay(files, src, dst)) <==>
              forall k | k in files && Under(src, k) && !files[k].directory :: !HasChildren(files, Renamed(src, dst, k))
  {
    hide Canonical, Under, Renamed, Copied, Overlay, Dir, TreeInv, HasChildren, RoomFor;
    TreeKeys(files);
    CopiedIsOverlay(files, src, dst);
    CopyTreeExact(files, src, dst, move);
    DisjointRoom(files, src, dst, move);
  }

  lemma AboveItself(src: string, dst: string, d: string)
    requires Canonical(src) && Canonical(dst) && src != "/" && Canonical(d) && Under(dst, d) && d == Dir(src)
    ensures Under(dst, src)
  {
    ParentOf(src);
    UnderTransitive(dst, d, src);
  }

  lemma WithoutSubtreeTree(files: Files, p: string)
    requires TreeInv(files) && Canonical(p) && p != "/"
    ensures TreeInv(WithoutSubtree(files, p))
  {
    var g := WithoutSubtree(files, p);
    RootParts();
    UnderParts(p, "/");
    forall k | k in g ensures Placed(g, k) {
      assert Placed(files, k);
      if k != "/" { UnderOfParent(p, k); }
    }
  }
}
