/** One turn of the read loop and of the write loop of the driver, as facts about stores. */
module Chunks {
  import opened Bytes
  import opened FatCodec
  import opened Chains
  import opened FatAlloc
  import opened Directory
  import opened Stores
  import opened Writing
  import FM = FileModel

  /** Where the next byte goes: inside the clusters on the device, or exactly behind them. */
  lemma NextBlock(s: Store, head: nat, n: nat, p: nat)
    requires s.cs > 0 && head != 0 && FileOk(s, head, n) && p <= n
    ensures head in s.owners && Pos(Quot(p, s.cs), s.cs, Rem(p, s.cs)) == p && Rem(p, s.cs) < s.cs
    ensures var k, f := OnDevice(s.owners[head], |s.data|), FileAt(s, head, n);
      && Quot(p, s.cs) <= k <= |s.owners[head]| && f.clusters == k && f.stuck == (k < |s.owners[head]|)
      && (Quot(p, s.cs) == k ==> Rem(p, s.cs) == 0 && p == Pos(k, s.cs, 0))
      && (Quot(p, s.cs) == k < |s.owners[head]| ==> s.owners[head][k] >= |s.data|)
      && (Quot(p, s.cs) < k ==> s.owners[head][Quot(p, s.cs)] < |s.data|)
  {
    hide Quot, Rem, Pos, Content;
    Located(p, s.cs, OnDevice(s.owners[head], |s.data|), 0);
  }

  lemma HomeApart(s: Store, head: nat, idx: nat)
    requires Inv(s) && head in s.owners && head != s.home && idx < |s.owners[head]|
    ensures s.owners[head][idx] != s.home && s.owners[head][idx] >= 2
  {
    var c := s.owners[head][idx];
    assert c in s.owners[head];
    assert s.home != 0 ==> s.owners[s.home][0] in s.owners[s.home];
    ChainDistinct(s, head);
  }

  /** The table after cluster `c`, free before, has been linked behind the chain of `head`. */
  ghost predicate Linked(s: Store, fat: seq<nat>, head: nat, c: nat)
    requires head in s.owners
  {
    && 2 <= c < s.Lim() && s.fat[c] == 0 && (c < |s.data| <==> s.Space().free > 0)
    && (c >= |s.data| ==> s.Space().spare > 0)
    && fat == Extended(s, head, c).fat
  }

  lemma LinkedBy(s: Store, fat: seq<nat>, head: nat, c: nat)
    requires Inv(s) && head in s.owners && 2 <= c < s.Lim() && s.fat[c] == 0 && (c < |s.data| <==> s.Space().free > 0)
    requires c >= |s.data| ==> s.Space().spare > 0
    requires LastOf(s.owners[head]) < |s.fat| && fat == s.fat[c := s.Eof()][LastOf(s.owners[head]) := c][c := s.Eof()]
    ensures Linked(s, fat, head, c)
  {
    hide Inv, LastOf;
    LastInTable(s, head);
    var last, eof := LastOf(s.owners[head]), s.Eof();
    assert s.fat[c := eof][last := c][c := eof] == s.fat[last := c][c := eof];
  }

  lemma LastInTable(s: Store, head: nat)
    requires Inv(s) && head in s.owners
    ensures |s.owners[head]| > 0 && LastOf(s.owners[head]) < s.Lim() <= |s.fat|
    ensures s.owners[head][0] == head && s.fat[LastOf(s.owners[head])] != 0
  {
    LastLinked(s, head);
    assert LastOf(s.owners[head]) in s.owners[head];
    LastUsed(s, head, LastOf(s.owners[head]));
  }

  lemma ChainStep(s: Store, head: nat, i: nat)
    requires Inv(s) && head in s.owners && i < |s.owners[head]|
    ensures var chain := s.owners[head];
      && chain[i] < |s.fat|
      && (i + 1 < |chain| ==> s.fat[chain[i]] == chain[i + 1] < s.Eof())
      && (i + 1 == |chain| ==> s.fat[chain[i]] >= s.Eof() && chain[i] == LastOf(chain))
  {
  }

  lemma AllocatedWhere(s: Store, after: seq<nat>, c: nat)
    requires Inv(s) && Allocated(s.fat, after, s.Eof(), c) && CanAlloc(s)
    ensures c == 0 ==> after == s.fat && s.Space() == FM.Space(0, 0)
    ensures c != 0 ==>
      && 2 <= c < s.Lim() && s.fat[c] == 0 && after == s.fat[c := s.Eof()]
      && (c < |s.data| <==> s.Space().free > 0) && (c >= |s.data| ==> s.Space().spare > 0)
  {
    AllocWhere(s, c);
  }

  lemma ClusterFits(s: Store, c: nat)
    requires c < s.Lim()
    ensures c % Radix(s.kind) == c
  {
  }

  /** Allocation either finds a cluster below Lim() or rightly finds none. */
  ghost predicate CanAlloc(s: Store) {
    s.Lim() == |s.fat| || s.Space().spare > 0
  }

  lemma ChainOf(s: Store, head: nat)
    requires TableOk(s) && head in s.owners
    ensures IsChain(s.fat, s.Eof(), s.owners[head]) && s.owners[head][0] == head && InRange(s.fat, s.Eof())
  {
  }

  /** The cluster of a byte of the file is on the device, and walking the chain finds it. */
  lemma NextToRead(s: Store, head: nat, size: nat, p: nat)
    requires Inv(s) && FileOk(s, head, size) && p < size
    ensures head in s.owners && s.cs > 0 && InRange(s.fat, s.Eof()) && head < |s.fat| && Rem(p, s.cs) < s.cs
    ensures var chain, idx := s.owners[head], Quot(p, s.cs);
      && idx < |chain| && 2 <= chain[idx] < |s.data| && |s.data[chain[idx]]| == s.cs
      && Walk(s.fat, s.Eof(), head, idx) == chain[idx]
    ensures |FileAt(s, head, size).bytes| == size
    ensures FileAt(s, head, size).bytes == Content(s.data, s.owners[head], s.cs, size)
  {
    hide FatCodec.Eof, Quot, Rem, Pos, Content, WellFormed, SlotOk, Apart, Partition, InRange, IsChain, Walk;
    var chain, idx := s.owners[head], Quot(p, s.cs);
    ChainOf(s, head);
    Located(p, s.cs, OnDevice(chain, |s.data|), 0);
    LastInTable(s, head);
    ChainDistinct(s, head);
    assert chain[idx] in chain && chain[0] in chain;
    WalkChain(s.fat, s.Eof(), chain, idx);
  }

  lemma ChunkOfContent(data: seq<seq<byte>>, chain: seq<nat>, cs: nat, size: nat, p: nat, k: nat)
    requires cs > 0 && p + k <= size && Rem(p, cs) + k <= cs && Quot(p, cs) < |chain|
    requires chain[Quot(p, cs)] < |data| && |data[chain[Quot(p, cs)]]| == cs
    ensures Content(data, chain, cs, size)[p..p + k] == data[chain[Quot(p, cs)]][Rem(p, cs)..Rem(p, cs) + k]
  {
    hide Quot, Rem, Pos;
    var a, b := Content(data, chain, cs, size)[p..p + k], data[chain[Quot(p, cs)]][Rem(p, cs)..Rem(p, cs) + k];
    forall i | 0 <= i < k
      ensures a[i] == b[i]
    {
      SameBlock(p, cs, i);
    }
  }

  lemma SameBlock(p: nat, m: nat, i: nat)
    requires m > 0 && Rem(p, m) + i < m
    ensures Quot(p + i, m) == Quot(p, m) && Rem(p + i, m) == Rem(p, m) + i
  {
    Located(p, m, 0, 0);
    DivModUnique(p + i, m, Quot(p, m), Rem(p, m) + i);
  }

  /** A file whose chain cannot grow any more needs no allocation. */
  ghost predicate CanGrow(s: Store, head: nat, size: nat) {
    CanAlloc(s) || FileAt(s, head, size).stuck
  }

  lemma ChunkStart(s0: Store, s: Store, head: nat, size: nat, pos: nat, w: seq<byte>)
    requires CanWrite(s0, head, size, pos) && CanGrow(s0, head, size) && Wrote(s0, s, head, size, pos, w)
    ensures s.cs > 0 && head in s.owners && Quot(pos + |w|, s.cs) <= |s.owners[head]| && |s.owners[head]| > 0
    ensures Quot(pos + |w|, s.cs) == |s.owners[head]| ==> CanAlloc(s)
    ensures Rem(pos + |w|, s.cs) < s.cs && Inv(s) && head != s.home
  {
    hide Inv, Pos, Quot, Rem, FileAt;
    BlocksPositive(s);
    LastInTable(s, head);
    WroteFits(s0, s, head, size, pos, w);
    NextBlock(s, head, FM.Max(size, pos + |w|), pos + |w|);
  }

  ghost function AfterWalk(s: Store, fat: seq<nat>, head: nat, idx: nat, c: nat): Store {
    if head in s.owners && idx == |s.owners[head]| then s.(fat := fat, owners := s.owners[head := s.owners[head] + [c]])
        else s
  }

  /** What the walk to cluster `idx` leaves when it does not run out of clusters. */
  ghost predicate Walked(s: Store, fat: seq<nat>, head: nat, idx: nat, c: nat) {
    && head in s.owners && idx <= |s.owners[head]|
    && (idx < |s.owners[head]| ==> c == s.owners[head][idx] && fat == s.fat)
    && (idx == |s.owners[head]| ==> Linked(s, fat, head, c))
  }

  lemma WalkedTo(s: Store, fat: seq<nat>, head: nat, idx: nat, c: nat)
    requires Inv(s) && head != s.home && Walked(s, fat, head, idx, c)
    ensures 2 <= c && c != s.home && AfterWalk(s, fat, head, idx, c).fat == fat
  {
    if idx < |s.owners[head]| {
      HomeApart(s, head, idx);
    } else if c == s.home {
      assert s.owners[c][0] in s.owners[c];
      LastUsed(s, c, c);
    }
  }

  /** The write is under way, `total` bytes in, and the walk has reached the cluster of the next byte. */
  ghost predicate AtChunk(s0: Store, s: Store, head: nat, size: nat, pos: nat, buf: seq<byte>, total: nat) {
    && CanWrite(s0, head, size, pos) && total < |buf| && Wrote(s0, s, head, size, pos, buf[..total])
  }

  lemma ChunkNone(s0: Store, s: Store, head: nat, size: nat, pos: nat, buf: seq<byte>, total: nat)
    requires AtChunk(s0, s, head, size, pos, buf, total) && head in s.owners
    requires Quot(pos + total, s.cs) == |s.owners[head]| && s.Space() == FM.Space(0, 0)
    ensures Written(s0, s, head, size, pos, buf, total)
  {
    hide Inv, Pos, Quot, Rem, FileAt, FileOk, Frame, Written, FM.Put;
    BlocksPositive(s);
    NextBlock(s, head, FM.Max(size, pos + total), pos + total);
    EndFull(s0, s, head, size, pos, buf, total);
  }

  lemma ChunkStops(s0: Store, s: Store, head: nat, size: nat, pos: nat, buf: seq<byte>, total: nat, fat: seq<nat>,
                   c: nat)
    requires AtChunk(s0, s, head, size, pos, buf, total)
    requires Walked(s, fat, head, Quot(pos + total, s.cs), c) && c >= |s.data|
    ensures Written(s0, AfterWalk(s, fat, head, Quot(pos + total, s.cs), c), head, size, pos, buf, total)
  {
    hide Inv, Pos, Quot, Rem, FileAt, FileOk, Frame, Written, FM.Put;
    BlocksPositive(s);
    NextBlock(s, head, FM.Max(size, pos + total), pos + total);
    if Quot(pos + total, s.cs) < |s.owners[head]| {
      EndFull(s0, s, head, size, pos, buf, total);
    } else {
      EndStuck(s0, s, head, size, pos, buf, total, c);
      assert AfterWalk(s, fat, head, Quot(pos + total, s.cs), c) == Extended(s, head, c);
    }
  }

  lemma ChunkDone(s0: Store, s: Store, head: nat, size: nat, pos: nat, buf: seq<byte>, total: nat, fat: seq<nat>,
                  c: nat, chunk: nat)
    requires AtChunk(s0, s, head, size, pos, buf, total)
    requires Walked(s, fat, head, Quot(pos + total, s.cs), c) && 2 <= c < |s.data|
    requires 0 < chunk <= |buf| - total && Rem(pos + total, s.cs) + chunk <= s.cs
    ensures |s.data[c]| == s.cs
    ensures var s1 := AfterWalk(s, fat, head, Quot(pos + total, s.cs), c);
      var t := s1.(data := s.data[c := Splice(s.data[c], Rem(pos + total, s.cs), buf[total..total + chunk])]);
      Wrote(s0, t, head, size, pos, buf[..total + chunk])
  {
    hide Inv, Pos, Quot, Rem, FileAt, FileOk, Frame, FM.Put, Splice;
    BlocksPositive(s);
    NextBlock(s, head, FM.Max(size, pos + total), pos + total);
    var idx, o, x := Quot(pos + total, s.cs), Rem(pos + total, s.cs), buf[total..total + chunk];
    assert buf[..total] + x == buf[..total + chunk];
    if idx < |s.owners[head]| {
      WroteInside(s0, s, head, size, pos, buf[..total], idx, o, x);
    } else {
      WroteBehind(s0, s, head, size, pos, buf[..total], c, x);
      assert AfterWalk(s, fat, head, idx, c) == Extended(s, head, c);
    }
  }
}
