/** Moving a regular file below itself, which is not refused: exactly what is lost. */
module RegularMoves {
  import opened Text
  import opened Paths
  import opened Host
  import opened FileTree
  import opened FileMoves
  import opened FileTheorems

  /** The entry written, and what is left after it. */
  function Placement(files: Files, src: string, dst: string, move: bool): Files
    requires src in files
  {
    var copied := files[dst := files[src].(path := dst)];
    if move then WithoutSubtree(copied, src) else copied
  }

  lemma RegularInto(files: Files, src: string, dst: string, move: bool)
    requires src in files && !files[src].directory
    ensures CopyInto(files, files[src], src, dst, move) == Placement(files, src, dst, move)
  {
    hide WithoutSubtree;
  }

  /** Above the target and not below the source there is nothing to create. */
  lemma NothingNewOutside(files: Files, src: string, dst: string, k: string)
    requires TreeInv(files) && src in files && Canonical(src) && Canonical(dst) && Under(src, dst)
    requires k in EnsureParents(files, dst) && !Under(src, k)
    ensures k in files
  {
    TreeKeys(files);
    EnsureParentsNoKeys(files, dst);
    EnsureParentsMeaning(files, dst, k);
    if k !in files {
      UnderLinear(src, k, dst);
      AncestorsPresent(files, src, k);
    }
  }

  lemma PlacementBelowItself(files: Files, src: string, dst: string)
    requires TreeInv(files) && src in files && !files[src].directory && Canonical(src) && Canonical(dst)
    requires Under(src, dst)
    ensures src in EnsureParents(files, dst)
    ensures Placement(EnsureParents(files, dst), src, dst, true) == files - {src}
  {
    hide Canonical, EnsureParents, Under, TreeInv;
    SourceStays(files, src, dst);
    EnsureParentsKeeps(files, dst);
    var after := Placement(EnsureParents(files, dst), src, dst, true);
    assert Under(src, src) by { SelfUnder(src); }
    forall k ensures k in after <==> k in files - {src} {
      if k in after { NothingNewOutside(files, src, dst, k); }
      if k in files && Under(src, k) { NothingBelowRegular(files, src, k); }
    }
    assert after.Keys == (files - {src}).Keys;
  }

  /** `mv f f/x` of a regular file is accepted and removes the file: only directories
      are kept from being moved below themselves. */
  lemma MoveBelowItselfLoses(h: Host, source: string, destination: string, user: string, recursive: bool, src: string, dst: string)
    requires TreeInv(h.files) && Resolved(h, source, destination, src, dst)
    requires src in h.files && !h.files[src].directory && Under(src, dst) && dst != src
    requires CopyRecursive(h, source, destination, user, true, recursive).1.Done?
    ensures CopyRecursive(h, source, destination, user, true, recursive).0 == h.(files := h.files - {src})
  {
    hide Canonical, Under, CopyRecursive, CopyInto, Placement, TreeInv;
    ResolvedCanonical(h, source, destination, src, dst);
    CopyDecision(h, source, destination, user, true, recursive, src, dst);
    SourceStays(h.files, src, dst);
    RegularInto(EnsureParents(h.files, dst), src, dst, true);
    PlacementBelowItself(h.files, src, dst);
  }

  /** A move of a regular file that is accepted loses it exactly when the resolved
      target is below the file itself. */
  lemma MoveLosesExact(h: Host, source: string, destination: string, user: string, recursive: bool, src: string, dst: string)
    requires TreeInv(h.files) && Resolved(h, source, destination, src, dst)
    requires src in h.files && !h.files[src].directory
    requires CopyRecursive(h, source, destination, user, true, recursive).1.Done?
    ensures var after := CopyRecursive(h, source, destination, user, true, recursive).0.files;
            && (dst !in after <==> Under(src, dst))
            && (!Under(src, dst) ==> after[dst] == h.files[src].(path := dst))
  {
    hide Canonical, Under, CopyRecursive, CopyInto, TreeInv;
    ResolvedCanonical(h, source, destination, src, dst);
    CopyDecision(h, source, destination, user, true, recursive, src, dst);
    SourceStays(h.files, src, dst);
    RegularInto(EnsureParents(h.files, dst), src, dst, true);
  }
}
