/** Cluster chains in an allocation table, seen as the plain array of its entries. */
module Chains {
  import opened Bytes

  /** A number the driver follows as a cluster. */
  ghost predicate IsCluster(eof: nat, c: nat) {
    2 <= c < eof
  }

  /** Entries are free, or name a cluster of the table, or end a chain. */
  ghost predicate InRange(fat: seq<nat>, eof: nat) {
    forall c | 2 <= c < |fat| :: fat[c] == 0 || 2 <= fat[c] < |fat| || fat[c] >= eof
  }

  /** The number reached from `c` in `n` steps; a walk stays where it can no longer be followed. */
  ghost function Walk(fat: seq<nat>, eof: nat, c: nat, n: nat): nat {
    if n == 0 then c
    else
      var d := Walk(fat, eof, c, n - 1);
      if IsCluster(eof, d) && d < |fat| then fat[d] else d
  }

  ghost predicate Reach(fat: seq<nat>, eof: nat, first: nat, c: nat) {
    IsCluster(eof, c) && exists n: nat :: Walk(fat, eof, first, n) == c
  }

  /** The table with every entry reachable from `first` cleared. */
  ghost function Freed(fat: seq<nat>, eof: nat, first: nat): (g: seq<nat>)
    ensures |g| == |fat|
  {
    seq(|fat|, c requires 0 <= c < |fat| => if Reach(fat, eof, first, c) then 0 else fat[c])
  }

  ghost function Cleared(fat: seq<nat>, done: set<nat>): seq<nat> {
    seq(|fat|, c requires 0 <= c < |fat| => if c in done then 0 else fat[c])
  }

  /** `done` holds clusters reached from `first`, and whatever follows one of them is in it too, or is `c`. */
  ghost predicate Swept(fat: seq<nat>, eof: nat, first: nat, c: nat, done: set<nat>) {
    && (first == c || first in done || !IsCluster(eof, first))
    && (IsCluster(eof, c) ==> c < |fat| && Reach(fat, eof, first, c))
    && forall d | d in done ::
         d < |fat| && Reach(fat, eof, first, d) && (fat[d] in done || fat[d] == c || !IsCluster(eof, fat[d]))
  }

  lemma StartSweep(fat: seq<nat>, eof: nat, first: nat)
    requires IsCluster(eof, first) ==> first < |fat|
    ensures Swept(fat, eof, first, first, {}) && Cleared(fat, {}) == fat
  {
    assert Walk(fat, eof, first, 0) == first;
  }

  /** Clearing one more entry, and what is left to clear. */
  lemma SweepProgress(fat: seq<nat>, done: set<nat>, c: nat)
    requires c < |fat|
    ensures Cleared(fat, done)[c := 0] == Cleared(fat, done + {c})
    ensures c !in done ==> |Range(0, |fat|) - (done + {c})| < |Range(0, |fat|) - done|
    ensures c in done ==> done + {c} == done && Cleared(fat, done)[c] == 0
  {
    if c !in done {
      assert Range(0, |fat|) - (done + {c}) == (Range(0, |fat|) - done) - {c};
    }
  }

  /** A walk that has left the clusters stays where it is. */
  lemma {:induction false} WalkStays(fat: seq<nat>, eof: nat, c: nat, i: nat, n: nat)
    requires i <= n && (i < n ==> !IsCluster(eof, Walk(fat, eof, c, i)))
    ensures Walk(fat, eof, c, n) == Walk(fat, eof, c, i)
  {
    if i < n {
      if i < n - 1 { WalkStays(fat, eof, c, i, n - 1); }
    }
  }

  lemma SweepStep(fat: seq<nat>, eof: nat, first: nat, c: nat, done: set<nat>)
    requires InRange(fat, eof) && Swept(fat, eof, first, c, done) && IsCluster(eof, c)
    ensures c < |fat| && Swept(fat, eof, first, Cleared(fat, done)[c], done + {c})
  {
    var n: nat :| Walk(fat, eof, first, n) == c;
    assert Walk(fat, eof, first, n + 1) == fat[c];
  }

  lemma SweepDone(fat: seq<nat>, eof: nat, first: nat, c: nat, done: set<nat>)
    requires Swept(fat, eof, first, c, done) && !IsCluster(eof, c)
    ensures Cleared(fat, done) == Freed(fat, eof, first)
  {
    forall d, n: nat | IsCluster(eof, d) && Walk(fat, eof, first, n) == d
      ensures d in done
    {
      WalkInside(fat, eof, first, c, done, n);
    }
    forall d | 0 <= d < |fat|
      ensures Cleared(fat, done)[d] == Freed(fat, eof, first)[d]
    {
    }
  }

  lemma {:induction false} WalkInside(fat: seq<nat>, eof: nat, first: nat, c: nat, done: set<nat>, n: nat)
    requires Swept(fat, eof, first, c, done) && !IsCluster(eof, c)
    ensures IsCluster(eof, Walk(fat, eof, first, n)) ==> Walk(fat, eof, first, n) in done
  {
    if n > 0 {
      WalkInside(fat, eof, first, c, done, n - 1);
    }
  }

  // ---- chains ----

  /** `s` is a chain: each entry names the next cluster, the last one ends it. */
  ghost predicate IsChain(fat: seq<nat>, eof: nat, s: seq<nat>) {
    && |s| > 0
    && (forall i | 0 <= i < |s| :: IsCluster(eof, s[i]) && s[i] < |fat|)
    && (forall i {:trigger fat[s[i]]} | 0 <= i < |s| - 1 :: fat[s[i]] == s[i + 1])
    && fat[s[|s| - 1]] >= eof
  }

  /** A chain that ends never visits a cluster twice. */
  lemma {:induction false} ChainIsAcyclic(fat: seq<nat>, eof: nat, s: seq<nat>, i: nat, j: nat)
    requires IsChain(fat, eof, s) && i < j < |s|
    ensures s[i] != s[j]
    decreases |s| - j
  {
    assert fat[s[i]] == s[i + 1] && IsCluster(eof, s[i + 1]);
    if j + 1 < |s| {
      ChainIsAcyclic(fat, eof, s, i + 1, j + 1);
    }
  }

  lemma {:induction false} WalkChain(fat: seq<nat>, eof: nat, s: seq<nat>, n: nat)
    requires IsChain(fat, eof, s)
    ensures n < |s| ==> Walk(fat, eof, s[0], n) == s[n]
    ensures n >= |s| ==> !IsCluster(eof, Walk(fat, eof, s[0], n)) && Walk(fat, eof, s[0], n) >= eof
  {
    if n > 0 {
      WalkChain(fat, eof, s, n - 1);
    }
  }

  /** From its head, exactly the chain is reached. */
  lemma ReachIsChain(fat: seq<nat>, eof: nat, s: seq<nat>, c: nat)
    requires IsChain(fat, eof, s)
    ensures Reach(fat, eof, s[0], c) <==> c in s
  {
    if Reach(fat, eof, s[0], c) {
      var n: nat :| Walk(fat, eof, s[0], n) == c;
      WalkChain(fat, eof, s, n);
    }
    if c in s {
      var n: nat :| n < |s| && s[n] == c;
      WalkChain(fat, eof, s, n);
    }
  }

  // ---- ownership ----

  /** Cluster `c` belongs to some chain. */
  ghost predicate Owned(owners: map<nat, seq<nat>>, c: nat) {
    exists h :: h in owners && c in owners[h]
  }

  /** Every cluster below `lim` that is not free lies in exactly one chain, filed under its first cluster. */
  ghost predicate Partition(fat: seq<nat>, eof: nat, lim: nat, owners: map<nat, seq<nat>>) {
    && 2 <= lim <= |fat| && lim <= eof
    && (forall h | h in owners :: IsChain(fat, eof, owners[h]) && owners[h][0] == h)
    && (forall h, c | h in owners && c in owners[h] :: c < lim)
    && (forall h, k, c | h in owners && k in owners && c in owners[h] && c in owners[k] :: h == k)
    && (forall c {:trigger Owned(owners, c)} | 2 <= c < lim && fat[c] != 0 :: Owned(owners, c))
  }

  lemma OwnedIffUsed(fat: seq<nat>, eof: nat, lim: nat, owners: map<nat, seq<nat>>, c: nat)
    requires Partition(fat, eof, lim, owners) && 2 <= c < lim
    ensures fat[c] != 0 <==> Owned(owners, c)
  {
    if Owned(owners, c) {
      var h :| h in owners && c in owners[h];
      ChainUsed(fat, eof, owners[h], c);
    }
  }

  lemma ChainUsed(fat: seq<nat>, eof: nat, s: seq<nat>, c: nat)
    requires IsChain(fat, eof, s) && c in s && eof > 0
    ensures c < |fat| && fat[c] != 0
  {
    var i :| 0 <= i < |s| && s[i] == c;
    if i + 1 < |s| {
      assert fat[c] == s[i + 1];
    }
  }

  /** A chain none of whose entries change stays a chain. */
  lemma ChainKept(fat: seq<nat>, g: seq<nat>, eof: nat, s: seq<nat>)
    requires IsChain(fat, eof, s) && |g| == |fat| && forall c | c in s && c < |fat| :: g[c] == fat[c]
    ensures IsChain(g, eof, s)
  {
    assert forall i | 0 <= i < |s| :: s[i] in s;
  }

  lemma SingleChain(fat: seq<nat>, eof: nat, c: nat)
    requires IsCluster(eof, c) && c < |fat| && fat[c] >= eof
    ensures IsChain(fat, eof, [c])
  {
  }

  /** Allocating a cluster makes it a chain of its own. */
  lemma NewChain(fat: seq<nat>, eof: nat, lim: nat, owners: map<nat, seq<nat>>, c: nat)
    requires Partition(fat, eof, lim, owners) && 2 <= c < lim && fat[c] == 0
    ensures c !in owners
    ensures Partition(fat[c := eof], eof, lim, owners[c := [c]])
  {
    hide IsChain;
    OwnedIffUsed(fat, eof, lim, owners, c);
    var g, o := fat[c := eof], owners[c := [c]];
    SingleChain(g, eof, c);
    forall h | h in owners
      ensures h != c && |o[h]| > 0 && o[h][0] == h && IsChain(g, eof, o[h])
    {
      Last(fat, eof, lim, owners, h);
      assert h in owners[h];
      ChainKept(fat, g, eof, owners[h]);
    }
    forall d | 2 <= d < lim && g[d] != 0
      ensures Owned(o, d)
    {
      if d == c {
        assert d in o[c];
      } else {
        assert Owned(owners, d);
        var h :| h in owners && d in owners[h];
        assert d in o[h];
      }
    }
  }

  lemma LongerChain(fat: seq<nat>, eof: nat, s: seq<nat>, c: nat)
    requires IsChain(fat, eof, s) && 2 <= c < |fat| && IsCluster(eof, c) && c !in s
    ensures IsChain(fat[c := eof][s[|s| - 1] := c], eof, s + [c])
  {
    var last := s[|s| - 1];
    forall i | 0 <= i < |s| - 1
      ensures s[i] != last && s[i] != c
    {
      ChainIsAcyclic(fat, eof, s, i, |s| - 1);
      assert s[i] in s;
    }
    assert last in s;
  }

  /** Allocating a cluster and linking it behind the last one of a chain. */
  lemma ExtendChain(fat: seq<nat>, eof: nat, lim: nat, owners: map<nat, seq<nat>>, h: nat, c: nat)
    requires Partition(fat, eof, lim, owners) && 2 <= c < lim && fat[c] == 0 && h in owners
    ensures var s := owners[h];
            Partition(fat[c := eof][s[|s| - 1] := c], eof, lim, owners[h := s + [c]])
  {
    hide IsChain;
    OwnedIffUsed(fat, eof, lim, owners, c);
    var s := owners[h];
    assert |s| > 0 && s[|s| - 1] < lim by { Last(fat, eof, lim, owners, h); }
    var last := s[|s| - 1];
    var g, o := fat[c := eof][last := c], owners[h := s + [c]];
    assert last in s;
    LongerChain(fat, eof, s, c);
    forall k | k in owners && k != h
      ensures IsChain(g, eof, o[k]) && |o[k]| > 0 && o[k][0] == k
    {
      Last(fat, eof, lim, owners, k);
      ChainKept(fat, g, eof, owners[k]);
    }
    forall d | 2 <= d < lim && g[d] != 0
      ensures Owned(o, d)
    {
      if d == c || d == last {
        assert d in o[h];
      } else {
        assert Owned(owners, d);
        var k :| k in owners && d in owners[k];
        assert d in o[k];
      }
    }
  }

  lemma Last(fat: seq<nat>, eof: nat, lim: nat, owners: map<nat, seq<nat>>, h: nat)
    requires Partition(fat, eof, lim, owners) && h in owners
    ensures |owners[h]| > 0 && owners[h][|owners[h]| - 1] < lim && owners[h][0] == h
  {
    assert owners[h][|owners[h]| - 1] in owners[h];
  }

  /** Freeing a chain from its head returns its clusters and disturbs no other chain. */
  lemma DropChain(fat: seq<nat>, eof: nat, lim: nat, owners: map<nat, seq<nat>>, h: nat)
    requires Partition(fat, eof, lim, owners) && h in owners
    ensures var g := Freed(fat, eof, h);
            && Partition(g, eof, lim, owners - {h})
            && forall c | 0 <= c < |fat| :: g[c] == if c in owners[h] then 0 else fat[c]
  {
    var g, o, s := Freed(fat, eof, h), owners - {h}, owners[h];
    forall c | 0 <= c < |fat|
      ensures g[c] == if c in s then 0 else fat[c]
    {
      ReachIsChain(fat, eof, s, c);
    }
    forall k | k in o
      ensures IsChain(g, eof, o[k]) && o[k][0] == k
    {
      ChainKept(fat, g, eof, owners[k]);
    }
    forall d | 2 <= d < lim && g[d] != 0
      ensures Owned(o, d)
    {
      assert Owned(owners, d);
      var k :| k in owners && d in owners[k];
      assert k in o && d in o[k];
    }
  }

  // ---- counting ----

  ghost function FreeSet(fat: seq<nat>, lo: nat, hi: nat): set<nat>
    requires hi <= |fat|
  {
    set c: nat | lo <= c < hi && fat[c] == 0
  }

  ghost function Elements(s: seq<nat>): set<nat> {
    set c | c in s
  }

  ghost function OwnedSet(owners: map<nat, seq<nat>>): set<nat> {
    set h, c | h in owners && c in owners[h] :: c
  }

  lemma {:induction false} DistinctCount(s: seq<nat>)
    requires forall i, j | 0 <= i < j < |s| :: s[i] != s[j]
    ensures |Elements(s)| == |s|
  {
    if s != [] {
      DistinctCount(s[1..]);
      assert Elements(s) == {s[0]} + Elements(s[1..]);
    }
  }

  ghost function Range(lo: nat, hi: nat): (r: set<nat>)
    requires lo <= hi
    ensures forall c: nat :: c in r <==> lo <= c < hi
    ensures |r| == hi - lo
    decreases hi - lo
  {
    if lo == hi then {} else {lo} + Range(lo + 1, hi)
  }

  /** No cluster is ever lost: free and owned clusters always make up the whole table. */
  lemma Conservation(fat: seq<nat>, eof: nat, lim: nat, owners: map<nat, seq<nat>>)
    requires Partition(fat, eof, lim, owners)
    ensures |FreeSet(fat, 2, lim)| + |OwnedSet(owners)| == lim - 2
  {
    var free, owned := FreeSet(fat, 2, lim), OwnedSet(owners);
    forall c | 2 <= c < lim
      ensures c in free <==> c !in owned
    {
      OwnedIffUsed(fat, eof, lim, owners, c);
    }
    assert forall c | c in owned :: 2 <= c < lim;
    assert free + owned == Range(2, lim);
    assert free !! owned;
  }
}
