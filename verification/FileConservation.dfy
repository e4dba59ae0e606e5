/** Moving a subtree relocates it exactly and conserves inodes and bytes; moving
    it back restores the map; copying adds exactly the subtree. */
module FileConservation {
  import opened Text
  import opened Paths
  import opened Host
  import opened FileTree
  import opened FileMoves
  import opened FileTheorems

  // ---- usage ----

  /** VirtualUsage's byte count, restricted to some keys. */
  ghost function BytesOf(files: Files, keys: set<string>): nat
    requires keys <= files.Keys
    decreases |keys|
  {
    if keys == {} then 0
    else
      var k :| k in keys;
      ByteLen(files[k].content) + BytesOf(files, keys - {k})
  }

  /** Any entry may be counted first. */
  lemma {:induction false} CountFirst(files: Files, keys: set<string>, k: string)
    requires keys <= files.Keys && k in keys
    ensures BytesOf(files, keys) == ByteLen(files[k].content) + BytesOf(files, keys - {k})
    decreases |keys|
  {
    var j :| j in keys && BytesOf(files, keys) == ByteLen(files[j].content) + BytesOf(files, keys - {j});
    if j != k {
      CountFirst(files, keys - {j}, k);
      CountFirst(files, keys - {k}, j);
      assert keys - {j} - {k} == keys - {k} - {j};
    }
  }

  lemma {:induction false} CountUnion(files: Files, a: set<string>, b: set<string>)
    requires a <= files.Keys && b <= files.Keys && a !! b
    ensures BytesOf(files, a + b) == BytesOf(files, a) + BytesOf(files, b)
    decreases |a|
  {
    if a == {} {
      assert a + b == b;
    } else {
      var k :| k in a;
      CountFirst(files, a, k);
      CountFirst(files, a + b, k);
      assert a + b - {k} == (a - {k}) + b;
      CountUnion(files, a - {k}, b);
    }
  }

  lemma {:induction false} CountSame(f: Files, g: Files, keys: set<string>)
    requires keys <= f.Keys && keys <= g.Keys
    requires forall k | k in keys :: f[k].content == g[k].content
    ensures BytesOf(f, keys) == BytesOf(g, keys)
    decreases |keys|
  {
    if keys != {} {
      var k :| k in keys;
      CountFirst(f, keys, k);
      CountFirst(g, keys, k);
      CountSame(f, g, keys - {k});
    }
  }

  function RenamedKeys(src: string, dst: string, keys: set<string>): set<string>
    requires forall k | k in keys :: Under(src, k)
  {
    set k | k in keys :: Renamed(src, dst, k)
  }

  lemma RenamedInjective(src: string, dst: string, j: string, k: string)
    requires Under(src, j) && Under(src, k) && Renamed(src, dst, j) == Renamed(src, dst, k)
    ensures j == k
  {
    assert Renamed(src, dst, j)[|dst|..] == j[|src|..];
    assert Renamed(src, dst, k)[|dst|..] == k[|src|..];
    assert j == src + j[|src|..] && k == src + k[|src|..];
  }

  lemma RenamedKeysStep(src: string, dst: string, keys: set<string>, k: string)
    requires k in keys && forall j | j in keys :: Under(src, j)
    ensures var r := Renamed(src, dst, k);
            && RenamedKeys(src, dst, keys) == RenamedKeys(src, dst, keys - {k}) + {r}
            && r !in RenamedKeys(src, dst, keys - {k})
  {
    var r := Renamed(src, dst, k);
    forall j | j in keys && Renamed(src, dst, j) == r ensures j == k { RenamedInjective(src, dst, j, k); }
  }

  /** Renaming a set of keys keeps how many there are and what they hold. */
  lemma {:induction false} CountRenamed(f: Files, g: Files, src: string, dst: string, keys: set<string>)
    requires keys <= f.Keys && forall k | k in keys :: Under(src, k)
    requires forall k | k in keys :: Renamed(src, dst, k) in g && g[Renamed(src, dst, k)].content == f[k].content
    ensures RenamedKeys(src, dst, keys) <= g.Keys
    ensures |RenamedKeys(src, dst, keys)| == |keys|
    ensures BytesOf(g, RenamedKeys(src, dst, keys)) == BytesOf(f, keys)
    decreases |keys|
  {
    hide Renamed, Under;
    if keys != {} {
      var k :| k in keys;
      var rest := keys - {k};
      CountRenamed(f, g, src, dst, rest);
      RenamedKeysStep(src, dst, keys, k);
      var r, all, fewer := Renamed(src, dst, k), RenamedKeys(src, dst, keys), RenamedKeys(src, dst, rest);
      assert all - {r} == fewer;
      CountFirst(f, keys, k);
      CountFirst(g, all, r);
    }
  }

  // ---- relocation ----

  /** A free target: nothing is there, and its parent is a directory. */
  ghost predicate FreshTarget(files: Files, dst: string) {
    dst !in files && Dir(dst) in files && files[Dir(dst)].directory
  }

  /** `after` is `files` with the subtree of `src` moved to `dst` and nothing else changed. */
  ghost predicate Relocated(files: Files, after: Files, src: string, dst: string) {
    && (forall k :: k in after <==> (k in files && !Under(src, k)) || Lands(files, src, dst, k))
    && (forall k | k in after ::
          after[k] == if Lands(files, src, dst, k) then files[Renamed(dst, src, k)].(path := k) else Lookup(files, k))
  }

  lemma NothingBelowFresh(files: Files, dst: string, k: string)
    requires TreeInv(files) && Canonical(dst) && dst !in files && k in files
    ensures !Under(dst, k)
  {
    if Under(dst, k) { AncestorsPresent(files, k, dst); }
  }

  lemma FreshGuards(files: Files, src: string, dst: string)
    requires TreeInv(files) && src in files && src != "/" && Canonical(dst) && FreshTarget(files, dst)
    ensures Canonical(src) && dst != "/" && AncestorsAreDirectories(files, dst) && !Under(dst, src)
    ensures forall k | k in files && Under(src, k) :: !HasChildren(files, Renamed(src, dst, k))
    ensures EnsureParents(files, dst) == files
  {
    TreeKeys(files);
    NothingBelowFresh(files, dst, src);
    RootParts();
    ParentOf(dst);
    forall k | k in files && Under(k, dst) && k != dst ensures files[k].directory {
      UnderOfParent(k, dst);
      AncestorsPresent(files, Dir(dst), k);
    }
    forall k | k in files && Under(src, k)
      ensures !HasChildren(files, Renamed(src, dst, k))
    {
      RenamedMeaning(src, dst, k);
      if HasChildren(files, Renamed(src, dst, k)) {
        var c :| c in files && c != "/" && Dir(c) == Renamed(src, dst, k);
        ParentInTree(files, c);
        NothingBelowFresh(files, dst, Dir(c));
      }
    }
    NothingToCreate(files, dst);
  }

  /** `mv` to a free place outside the source relocates the subtree exactly. */
  lemma MoveRelocates(h: Host, source: string, destination: string, user: string, recursive: bool,
                      src: string, dst: string)
    requires TreeInv(h.files) && Resolved(h, source, destination, src, dst)
    requires src in h.files && !Under(src, dst) && FreshTarget(h.files, dst)
    requires CanRead(h, h.files[src], user) && CanWrite(h, h.files[Dir(dst)], user)
    ensures var (after, outcome) := CopyRecursive(h, source, destination, user, true, recursive);
            && outcome.Done? && after == h.(files := after.files)
            && TreeInv(after.files) && Relocated(h.files, after.files, src, dst)
  {
    ResolvedCanonical(h, source, destination, src, dst);
    FreshGuards(h.files, src, dst);
    CopyDecision(h, source, destination, user, true, recursive, src, dst);
    UnderParts(src, src);
    assert dst != src;
    CopyIsOverlayOnTree(h, source, destination, user, true, recursive, src, dst);
    OverlayTreeExact(h.files, src, dst, true);
    MovedMap(h.files, src, dst);
  }

  lemma MovedMap(files: Files, src: string, dst: string)
    requires TreeInv(files) && src in files && src != "/" && Canonical(src) && Canonical(dst) && dst != "/" && Disjoint(src, dst)
    ensures Relocated(files, WithoutSubtree(Overlay(files, src, dst), src), src, dst)
  {
    TreeKeys(files);
    var after := WithoutSubtree(Overlay(files, src, dst), src);
    forall k
      ensures k in after <==> (k in files && !Under(src, k)) || Lands(files, src, dst, k)
      ensures k in after ==>
                after[k] == if Lands(files, src, dst, k) then files[Renamed(dst, src, k)].(path := k) else Lookup(files, k)
    {
      OverlayMeaning(files, src, dst, k);
      if Lands(files, src, dst, k) && Under(src, k) { UnderLinear(src, dst, k); }
    }
  }

  /** The keys of a relocated map: what stays and what lands. */
  lemma RelocatedKeys(files: Files, after: Files, src: string, dst: string)
    requires TreeInv(files) && src in files && src != "/" && Canonical(dst) && dst != "/" && dst !in files
    requires !Under(src, dst) && Relocated(files, after, src, dst)
    ensures var sub := SubtreeKeys(files, src);
            && after.Keys == (files.Keys - sub) + RenamedKeys(src, dst, sub)
            && (files.Keys - sub) !! RenamedKeys(src, dst, sub)
            && (forall k | k in sub :: Renamed(src, dst, k) in after && after[Renamed(src, dst, k)].content == files[k].content)
            && (forall k | k in files.Keys - sub :: k in after && after[k] == files[k])
  {
    TreeKeys(files);
    var sub := SubtreeKeys(files, src);
    forall k | k in sub
      ensures Lands(files, src, dst, Renamed(src, dst, k))
      ensures Renamed(dst, src, Renamed(src, dst, k)) == k && Renamed(src, dst, k) !in files
    {
      RenamedMeaning(src, dst, k);
      if Renamed(src, dst, k) in files { NothingBelowFresh(files, dst, Renamed(src, dst, k)); }
    }
    forall k | k in files ensures !Lands(files, src, dst, k) { NothingBelowFresh(files, dst, k); }
    forall k | k in after
      ensures k in files.Keys - sub || k in RenamedKeys(src, dst, sub)
    {
      if Lands(files, src, dst, k) {
        LandsAt(files, src, dst, k);
        assert Renamed(dst, src, k) in sub;
      }
    }
  }

  /** Two maps that share some entries and hold as much besides them. */
  lemma CountTwoParts(f: Files, g: Files, stay: set<string>, a: set<string>, b: set<string>)
    requires f.Keys == stay + a && stay !! a && g.Keys == stay + b && stay !! b
    requires forall k | k in stay :: g[k].content == f[k].content
    requires |a| == |b| && BytesOf(f, a) == BytesOf(g, b)
    ensures |f| == |g| && BytesOf(f, f.Keys) == BytesOf(g, g.Keys)
  {
    hide BytesOf;
    CountUnion(f, stay, a);
    CountUnion(g, stay, b);
    CountSame(f, g, stay);
    assert |f.Keys| == |stay| + |a| && |g.Keys| == |stay| + |b|;
  }

  /** A move keeps the number of inodes and the number of bytes. */
  lemma MoveConserves(files: Files, after: Files, src: string, dst: string)
    requires TreeInv(files) && src in files && src != "/" && Canonical(dst) && dst != "/" && dst !in files
    requires !Under(src, dst) && Relocated(files, after, src, dst)
    ensures |after| == |files|
    ensures BytesOf(after, after.Keys) == BytesOf(files, files.Keys)
  {
    hide BytesOf, Renamed, RenamedKeys, Relocated, TreeInv, Canonical;
    RelocatedKeys(files, after, src, dst);
    var sub := SubtreeKeys(files, src);
    CountRenamed(files, after, src, dst, sub);
    assert files.Keys == (files.Keys - sub) + sub;
    CountTwoParts(files, after, files.Keys - sub, sub, RenamedKeys(src, dst, sub));
  }

  /** `cp -r` to a free place adds exactly the subtree's inodes and bytes. */
  lemma CopyAdds(h: Host, source: string, destination: string, user: string, src: string, dst: string)
    requires TreeInv(h.files) && Resolved(h, source, destination, src, dst)
    requires src in h.files && !Under(src, dst) && FreshTarget(h.files, dst)
    requires CanRead(h, h.files[src], user) && CanWrite(h, h.files[Dir(dst)], user)
    ensures var (after, outcome) := CopyRecursive(h, source, destination, user, false, true);
            var sub := SubtreeKeys(h.files, src);
            && outcome.Done? && TreeInv(after.files)
            && (forall k | k in h.files :: k in after.files && after.files[k] == h.files[k])
            && |after.files| == |h.files| + |sub|
            && BytesOf(after.files, after.files.Keys)
            == BytesOf(h.files, h.files.Keys) + BytesOf(h.files, sub)
  {
    var files := h.files;
    ResolvedCanonical(h, source, destination, src, dst);
    FreshGuards(files, src, dst);
    CopyDecision(h, source, destination, user, false, true, src, dst);
    UnderParts(src, src);
    CopyIsOverlayOnTree(h, source, destination, user, false, true, src, dst);
    OverlayTreeExact(files, src, dst, false);
    MovedMap(files, src, dst);
    var after := Overlay(files, src, dst);
    RelocatedKeys(files, WithoutSubtree(after, src), src, dst);
    OverlayAdds(files, src, dst);
    var sub := SubtreeKeys(files, src);
    var landed := RenamedKeys(src, dst, sub);
    CountRenamed(files, after, src, dst, sub);
    CountUnion(after, files.Keys, landed);
    CountSame(files, after, files.Keys);
    assert |after.Keys| == |files.Keys| + |landed|;
  }

  lemma OverlayAdds(files: Files, src: string, dst: string)
    requires TreeInv(files) && src in files && src != "/" && Canonical(src) && Canonical(dst) && dst != "/" && Disjoint(src, dst)
    requires dst !in files
    ensures var after := Overlay(files, src, dst);
            var sub := SubtreeKeys(files, src);
            && after.Keys == files.Keys + RenamedKeys(src, dst, sub) && files.Keys !! RenamedKeys(src, dst, sub)
            && (forall k | k in files :: after[k] == files[k])
            && (forall k | k in sub :: after[Renamed(src, dst, k)].content == files[k].content)
  {
    TreeKeys(files);
    var after := Overlay(files, src, dst);
    var sub := SubtreeKeys(files, src);
    forall k | k in files ensures k in after && after[k] == files[k] {
      OverlayMeaning(files, src, dst, k);
      NothingBelowFresh(files, dst, k);
    }
    forall k | k in sub
      ensures Renamed(src, dst, k) in after && Renamed(src, dst, k) !in files
      ensures after[Renamed(src, dst, k)].content == files[k].content
    {
      RenamedMeaning(src, dst, k);
      OverlayMeaning(files, src, dst, Renamed(src, dst, k));
      if Renamed(src, dst, k) in files { NothingBelowFresh(files, dst, Renamed(src, dst, k)); }
    }
    forall k | k in after && k !in files ensures k in RenamedKeys(src, dst, sub) {
      OverlayMeaning(files, src, dst, k);
      LandsAt(files, src, dst, k);
      assert Renamed(dst, src, k) in sub;
    }
  }

  // ---- moving back ----

  /** Relocating there and back is the identity on the map. */
  lemma RelocatedBack(files: Files, mid: Files, after: Files, src: string, dst: string)
    requires TreeInv(files) && src in files && src != "/" && Canonical(src) && Canonical(dst) && dst != "/" && dst !in files
    requires Disjoint(src, dst)
    requires Relocated(files, mid, src, dst) && Relocated(mid, after, dst, src)
    ensures after == files
  {
    TreeKeys(files);
    forall k
      ensures k in after <==> k in files
      ensures k in after ==> after[k] == files[k]
    {
      if Under(src, k) {
        if k in files || Lands(mid, dst, src, k) {
          var r := Renamed(src, dst, k);
          if k in files { RenamedMeaning(src, dst, k); } else { RenamedBack(src, dst, k, r); }
          assert Renamed(dst, src, r) == k;
          assert Lands(files, src, dst, r) <==> k in files;
          if k in files { assert Placed(files, k); }
          if r in files { NothingBelowFresh(files, dst, r); }
        }
      } else {
        if k in files { NothingBelowFresh(files, dst, k); }
        if k in mid && !Under(dst, k) {
          assert !Lands(files, src, dst, k);
        }
      }
    }
    assert after.Keys == files.Keys;
  }

  /** Moving a subtree away and back restores the filesystem. */
  lemma MoveBackRestores(h: Host, source: string, destination: string, user: string, recursive: bool,
                         src: string, dst: string)
    requires TreeInv(h.files) && Resolved(h, source, destination, src, dst)
    requires src in h.files && !Under(src, dst) && FreshTarget(h.files, dst)
    requires CanRead(h, h.files[src], user) && CanWrite(h, h.files[Dir(dst)], user) && CanWrite(h, Lookup(h.files, Dir(src)), user)
    ensures var away := CopyRecursive(h, source, destination, user, true, recursive).0;
            CopyRecursive(away, dst, src, user, true, recursive) == (h, Done)
  {
    MoveRelocates(h, source, destination, user, recursive, src, dst);
    ResolvedCanonical(h, source, destination, src, dst);
    var away := CopyRecursive(h, source, destination, user, true, recursive).0;
    FreshGuards(h.files, src, dst);
    NormalizeIdempotent(src, h.cwd);
    NormalizeIdempotent(dst, h.cwd);
    CleanCanonical(src);
    CleanCanonical(dst);
    AwayFacts(h, away, user, src, dst);
    assert Resolved(away, dst, src, dst, src);
    MoveRelocates(away, dst, src, user, recursive, dst, src);
    var back := CopyRecursive(away, dst, src, user, true, recursive).0;
    RelocatedBack(h.files, away.files, back.files, src, dst);
  }

  lemma AwayFacts(h: Host, away: Host, user: string, src: string, dst: string)
    requires TreeInv(h.files) && src in h.files && src != "/" && Canonical(src) && Canonical(dst) && dst != "/"
    requires Disjoint(src, dst) && dst !in h.files && FreshTarget(h.files, dst)
    requires away == h.(files := away.files) && Relocated(h.files, away.files, src, dst)
    requires CanRead(h, h.files[src], user) && CanWrite(h, Lookup(h.files, Dir(src)), user)
    ensures dst in away.files && FreshTarget(away.files, src)
    ensures CanRead(away, away.files[dst], user) && CanWrite(away, away.files[Dir(src)], user)
  {
    var files := h.files;
    TreeKeys(files);
    RenamedSource(src, dst);
    RenamedSource(dst, src);
    assert Lands(files, src, dst, dst);
    assert !Lands(files, src, dst, src);
    assert Placed(files, src);
    ParentOf(src);
    NothingBelowFresh(files, dst, Dir(src));
    assert Dir(src) in away.files && away.files[Dir(src)] == files[Dir(src)];
  }
}
