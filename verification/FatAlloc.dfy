/** Allocation, release and traversal of clusters on a mounted volume whose device answers. */
module FatAlloc {
  import opened FatCodec
  import opened FatVolumes
  import opened Chains

  /** The lowest free cluster, marked as the end of a chain; 0 when the table has none. */
  method AllocCluster(v: FatVolume) returns (c: nat)
    requires v.Valid() && v.disk.reliable
    modifies v, v.disk, v.cbuf, v.fat
    ensures v.Valid() && v.data == old(v.data) && v.rootDir == old(v.rootDir) && v.rootDirty == old(v.rootDirty)
    ensures c == 0 && old(v.TableClean()) ==> v.TableClean()
    ensures Allocated(old(v.Fat()), v.Fat(), Eof(v.kind), c)
  {
    hide FatVolume.TableClean, Entries, FatVolume.Valid, MaxCluster, Eof, Radix;
    ghost var f := v.Fat();
    var max := v.Max();
    c := 2;
    while c < max
      invariant 2 <= c
      invariant v.Valid() && v.table == old(v.table) && v.data == old(v.data) && v.rootDir == old(v.rootDir)
      invariant v.rootDirty == old(v.rootDirty) && (old(v.TableClean()) ==> v.TableClean())
      invariant NoneFree(f, c)
    {
      var e := v.FatGet(c);
      if e == 0 {
        EofFits(v.kind);
        v.FatSet(c, Eof(v.kind));
        return;
      }
      c := c + 1;
    }
    c := 0;
  }

  ghost predicate NoneFree(fat: seq<nat>, end: nat) {
    forall d | 2 <= d < end && d < |fat| :: fat[d] != 0
  }

  /** What allocation does to the table: the lowest free cluster becomes a chain, or there was none. */
  ghost predicate Allocated(before: seq<nat>, after: seq<nat>, eof: nat, c: nat) {
    if c == 0 then after == before && NoneFree(before, |before|)
    else 2 <= c < |before| && before[c] == 0 && NoneFree(before, c) && after == before[c := eof]
  }

  lemma ZeroFits(kind: Kind)
    ensures 0 % Radix(kind) == 0
  {
  }

  lemma EofFits(kind: Kind)
    ensures Eof(kind) % Radix(kind) == Eof(kind) && Eof(kind) > 2
  {
  }

  /** Clear every entry on the walk from `first`, whatever the table looks like: cycles and cross links included. */
  method FreeChain(v: FatVolume, first: nat)
    requires v.Valid() && v.disk.reliable && InRange(v.Fat(), Eof(v.kind))
    requires IsCluster(Eof(v.kind), first) ==> first < v.Max()
    modifies v, v.disk, v.cbuf, v.fat
    ensures v.Valid() && v.data == old(v.data) && v.rootDir == old(v.rootDir) && v.rootDirty == old(v.rootDirty)
    ensures v.Fat() == Freed(old(v.Fat()), Eof(v.kind), first)
  {
    hide FatVolume.TableClean, Entries, FatVolume.Valid, MaxCluster, Freed, Cleared, Swept, Eof, Radix, EntryOffset,
         EntryWidth, PutEntry, InRange, Range;
    ghost var f, eof := v.Fat(), Eof(v.kind);
    ghost var done: set<nat> := {};
    var c: nat := first;
    StartSweep(f, eof, first);
    while c >= 2 && c < Eof(v.kind)
      invariant v.Valid() && v.data == old(v.data) && v.rootDir == old(v.rootDir) && v.rootDirty == old(v.rootDirty)
      invariant Swept(f, eof, first, c, done) && v.Fat() == Cleared(f, done)
      decreases |Range(0, |f|) - done|, c
    {
      var here: nat := c;
      SweepStep(f, eof, first, here, done);
      c := v.FatGet(here);
      v.FatSet(here, 0);
      ZeroFits(v.kind);
      SweepProgress(f, done, here);
      done := done + {here};
    }
    SweepDone(f, eof, first, c, done);
  }

  /** The cluster `n` links after `c`. */
  method ClusterAfter(v: FatVolume, c: nat, n: nat) returns (r: nat)
    requires v.Valid() && v.disk.reliable && InRange(v.Fat(), Eof(v.kind))
    requires IsCluster(Eof(v.kind), c) ==> c < v.Max()
    modifies v, v.disk, v.cbuf
    ensures v.Valid() && v.table == old(v.table) && v.data == old(v.data) && v.rootDir == old(v.rootDir)
    ensures v.rootDirty == old(v.rootDirty) && (old(v.TableClean()) ==> v.TableClean())
    ensures r == Walk(old(v.Fat()), Eof(v.kind), c, n)
  {
    hide FatVolume.TableClean, Entries, FatVolume.Valid, MaxCluster;
    ghost var f, eof := v.Fat(), Eof(v.kind);
    r := c;
    var i: nat := 0;
    while i < n && r >= 2 && r < Eof(v.kind)
      invariant 0 <= i <= n
      invariant v.Valid() && v.table == old(v.table) && v.data == old(v.data) && v.rootDir == old(v.rootDir)
      invariant v.rootDirty == old(v.rootDirty) && (old(v.TableClean()) ==> v.TableClean())
      invariant r == Walk(f, eof, c, i) && (IsCluster(eof, r) ==> r < |f|)
    {
      r := v.FatGet(r);
      i := i + 1;
    }
    WalkStays(f, eof, c, i, n);
  }
}
