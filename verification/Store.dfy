/** The contents of a mounted volume as values, the invariant of the driver, and what each elementary step keeps. */
module Stores {
  import opened Bytes
  import opened FatCodec
  import opened Chains
  import opened Directory
  import FM = FileModel

  /** `home` is the cluster of the directory in use (0: the fixed root); `owners` files each chain under its head;
      `base` is the fixed root when another directory is in use. */
  datatype Store = Store(kind: Kind, cs: nat, fat: seq<nat>, data: seq<seq<byte>>, slots: seq<Slot>, home: nat,
                         owners: map<nat, seq<nat>>, base: seq<byte>) {

    function Eof(): nat { FatCodec.Eof(kind) }

    /** Clusters below Lim() can be linked; those below End() are on the device. */
    function Lim(): nat { FM.Min(|fat|, Eof()) }
    function End(): nat { FM.Min(|data|, Lim()) }

    ghost function Space(): FM.Space
    {
      FM.Space(|FreeSet(fat, 2, End())|, |FreeSet(fat, End(), Lim())|)
    }
  }

  // ---- the bytes of a chain ----

  function ByteAt(data: seq<seq<byte>>, chain: seq<nat>, cs: nat, p: nat): byte {
    var q, r := Quot(p, cs), Rem(p, cs);
    if q < |chain| && chain[q] < |data| && r < |data[chain[q]]| then data[chain[q]][r] else 0
  }

  function Content(data: seq<seq<byte>>, chain: seq<nat>, cs: nat, size: nat): (b: seq<byte>)
    ensures |b| == size
  {
    seq(size, p requires 0 <= p < size => ByteAt(data, chain, cs, p))
  }

  ghost predicate Distinct(s: seq<nat>) {
    forall i, j | 0 <= i < j < |s| :: s[i] != s[j]
  }

  lemma WriteByte(data: seq<seq<byte>>, chain: seq<nat>, cs: nat, idx: nat, o: nat, w: seq<byte>, p: nat)
    requires cs > 0 && Distinct(chain) && idx < |chain| && chain[idx] < |data| && |data[chain[idx]]| == cs
    requires o + |w| <= cs
    ensures ByteAt(data[chain[idx] := Splice(data[chain[idx]], o, w)], chain, cs, p)
         == if Pos(idx, cs, o) <= p < Pos(idx, cs, o) + |w| then w[p - Pos(idx, cs, o)] else ByteAt(data, chain, cs, p)
  {
    hide Quot, Rem, Pos, Splice;
    Located(p, cs, idx, o);
    var q, r := Quot(p, cs), Rem(p, cs);
    if q == idx {
      SpliceAt(data[chain[idx]], o, w, r);
    } else {
      assert q < |chain| ==> chain[q] != chain[idx];
    }
  }

  /** Writing into one cluster of a chain is overwriting the file at that position. */
  lemma WriteContent(data: seq<seq<byte>>, chain: seq<nat>, cs: nat, size: nat, idx: nat, o: nat, w: seq<byte>)
    requires cs > 0 && Distinct(chain) && idx < |chain| && chain[idx] < |data| && |data[chain[idx]]| == cs
    requires o + |w| <= cs
    requires Pos(idx, cs, o) <= size
    ensures var pos, e := Pos(idx, cs, o), data[chain[idx] := Splice(data[chain[idx]], o, w)];
            Content(e, chain, cs, FM.Max(size, pos + |w|)) == FM.Overwrite(Content(data, chain, cs, size), pos, w)
  {
    hide Pos, Quot, Rem, Splice;
    var pos, e := Pos(idx, cs, o), data[chain[idx] := Splice(data[chain[idx]], o, w)];
    var a, b := Content(e, chain, cs, FM.Max(size, pos + |w|)), FM.Overwrite(Content(data, chain, cs, size), pos, w);
    forall p | 0 <= p < |a|
      ensures a[p] == b[p]
    {
      WriteByte(data, chain, cs, idx, o, w, p);
    }
  }

  /** The bytes of a chain depend on its clusters on the device only. */
  lemma ContentKept(data: seq<seq<byte>>, e: seq<seq<byte>>, chain: seq<nat>, cs: nat, size: nat)
    requires |e| == |data| && forall c | c in chain && c < |data| :: e[c] == data[c]
    ensures Content(e, chain, cs, size) == Content(data, chain, cs, size)
  {
    forall p | 0 <= p < size
      ensures ByteAt(e, chain, cs, p) == ByteAt(data, chain, cs, p)
    {
      if Quot(p, cs) < |chain| {
        assert chain[Quot(p, cs)] in chain;
      }
    }
  }

  lemma ContentLonger(data: seq<seq<byte>>, chain: seq<nat>, c: nat, cs: nat, size: nat)
    requires cs > 0 && size <= Pos(|chain|, cs, 0)
    ensures Content(data, chain + [c], cs, size) == Content(data, chain, cs, size)
  {
    hide Quot, Rem, Pos;
    forall p | 0 <= p < size
      ensures ByteAt(data, chain + [c], cs, p) == ByteAt(data, chain, cs, p)
    {
      Located(p, cs, |chain|, 0);
    }
  }

  // ---- files ----

  /** Clusters of a chain that are on the device: all of them, or all but the last. */
  function OnDevice(chain: seq<nat>, end: nat): nat {
    if |chain| == 0 then 0 else if chain[|chain| - 1] < end then |chain| else |chain| - 1
  }

  /** The chain filed under `head`, holding `size` bytes; no chain is filed under 0. */
  ghost predicate FileOk(s: Store, head: nat, size: nat) {
    && (head == 0 ==> size == 0)
    && (head != 0 ==>
          && head in s.owners && |s.owners[head]| > 0
          && (forall i | 0 <= i < |s.owners[head]| - 1 :: s.owners[head][i] < |s.data|)
          && size <= Pos(OnDevice(s.owners[head], |s.data|), s.cs, 0))
  }

  ghost function FileAt(s: Store, head: nat, size: nat): FM.File {
    if head == 0 || head !in s.owners then FM.File([], 0, false)
    else
      var chain := s.owners[head];
      var n := OnDevice(chain, |s.data|);
      FM.File(Content(s.data, chain, s.cs, size), n, n < |chain|)
  }

  /** The subdirectory whose chain is filed under `head`. */
  ghost function FolderAt(s: Store, head: nat): FM.Folder {
    var f := FileAt(s, head, 0);
    FM.Folder(f.clusters, f.stuck, head < |s.data| && NoneUsed(Slots(s.data[head]), 2))
  }

  // ---- the invariant ----

  ghost predicate TableOk(s: Store) {
    && s.cs > 0 && 2 <= |s.data| && (forall c | 2 <= c < |s.data| :: |s.data[c]| == s.cs)
    && 2 <= |s.fat| && InRange(s.fat, s.Eof()) && Partition(s.fat, s.Eof(), s.Lim(), s.owners)
    && (s.home != 0 ==> s.home in s.owners && s.home < |s.data|)
  }

  /** A file or subdirectory has a chain that holds it; that of a subdirectory begins on the device. */
  ghost predicate SlotOk(s: Store, e: Slot) {
    Owns(e) ==>
      && FileOk(s, ClusterOf(s.kind, e), Extent(e)) && (s.home != 0 ==> ClusterOf(s.kind, e) != s.home)
      && (IsFolder(e) ==> 0 != ClusterOf(s.kind, e) < |s.data|)
  }

  /** Two different entries of the directory never share a chain. */
  ghost predicate Apart(kind: Kind, slots: seq<Slot>) {
    forall i, j {:trigger ClusterOf(kind, slots[i]), ClusterOf(kind, slots[j])} | 0 <= i < |slots| && 0 <= j < |slots|
      && Owns(slots[i]) && Owns(slots[j]) && ClusterOf(kind, slots[i]) == ClusterOf(kind, slots[j]) != 0 :: i == j
  }

  ghost predicate Inv(s: Store) {
    && TableOk(s) && WellFormed(s.slots) && Apart(s.kind, s.slots)
    && forall i | 0 <= i < |s.slots| :: SlotOk(s, s.slots[i])
  }

  /** Everything filed under other heads than `head` is as it was: chains, and the clusters they hold on the device. */
  ghost predicate Frame(s: Store, t: Store, head: nat) {
    && t.kind == s.kind && t.cs == s.cs && t.home == s.home && t.base == s.base
    && |t.fat| == |s.fat| && |t.data| == |s.data|
    && (forall h | h in s.owners && h != head :: h in t.owners && t.owners[h] == s.owners[h])
    && (forall h, c | h in s.owners && h != head && c in s.owners[h] && c < |s.data| :: t.data[c] == s.data[c])
  }

  lemma FrameTrans(s: Store, t: Store, u: Store, head: nat)
    requires Frame(s, t, head) && Frame(t, u, head)
    ensures Frame(s, u, head)
  {
  }

  lemma FramedFile(s: Store, t: Store, head: nat, h: nat, size: nat)
    requires Frame(s, t, head) && h != head && FileOk(s, h, size)
    ensures FileOk(t, h, size) && FileAt(t, h, size) == FileAt(s, h, size)
  {
    if h != 0 {
      ContentKept(s.data, t.data, s.owners[h], s.cs, size);
    }
  }

  lemma FramedFolder(s: Store, t: Store, head: nat, h: nat)
    requires TableOk(s) && Frame(s, t, head) && h != head && h != 0 && h < |s.data| && FileOk(s, h, 0)
    ensures FolderAt(t, h) == FolderAt(s, h)
  {
    hide NoneUsed, Slots;
    FramedFile(s, t, head, h, 0);
    Last(s.fat, s.Eof(), s.Lim(), s.owners, h);
    assert s.owners[h][0] in s.owners[h];
  }

  /** One chain per entry: it starts at the cluster the entry names, ends with an end mark, comes back to no cluster,
      and shares none with the chain of another entry; free entries and chains make up the whole table. */
  lemma EntryChains(s: Store, i: nat, j: nat)
    requires Inv(s) && i < |s.slots| && j < |s.slots| && Owns(s.slots[i]) && Owns(s.slots[j])
    requires ClusterOf(s.kind, s.slots[i]) != 0 && ClusterOf(s.kind, s.slots[j]) != 0
    ensures var a, b := ClusterOf(s.kind, s.slots[i]), ClusterOf(s.kind, s.slots[j]);
      && a in s.owners && b in s.owners && IsChain(s.fat, s.Eof(), s.owners[a]) && s.owners[a][0] == a
      && Distinct(s.owners[a])
      && (i != j ==> forall c :: !(c in s.owners[a] && c in s.owners[b]))
    ensures |FreeSet(s.fat, 2, s.Lim())| + |OwnedSet(s.owners)| == s.Lim() - 2
  {
    hide FatCodec.Eof, WellFormed, Owns, ClusterOf;
    var a := ClusterOf(s.kind, s.slots[i]);
    assert SlotOk(s, s.slots[i]) && SlotOk(s, s.slots[j]);
    ChainDistinct(s, a);
    Last(s.fat, s.Eof(), s.Lim(), s.owners, a);
    Conservation(s.fat, s.Eof(), s.Lim(), s.owners);
  }

  // ---- what belongs to other directories ----

  /** A chain that no entry of the directory refers to: a file or directory elsewhere on the volume. */
  ghost predicate Elsewhere(s: Store, h: nat) {
    h in s.owners && h != s.home && forall e | e in s.slots && Owns(e) :: ClusterOf(s.kind, e) != h
  }

  /** Chains of other directories and the bytes on their clusters are as they were, and so is the chain of the
      directory itself. */
  ghost predicate OthersKept(s: Store, t: Store) {
    && t.kind == s.kind && t.cs == s.cs && t.home == s.home && t.base == s.base
    && |t.fat| == |s.fat| && |t.data| == |s.data|
    && (s.home in s.owners ==> s.home in t.owners && t.owners[s.home] == s.owners[s.home])
    && (forall h | Elsewhere(s, h) :: Elsewhere(t, h) && t.owners[h] == s.owners[h])
    && forall h, c | Elsewhere(s, h) && c in s.owners[h] && c < |s.data| :: t.data[c] == s.data[c]
  }

  lemma OthersSame(s: Store)
    ensures OthersKept(s, s)
  {
  }

  lemma OthersTrans(s: Store, t: Store, u: Store)
    requires OthersKept(s, t) && OthersKept(t, u)
    ensures OthersKept(s, u)
  {
    hide Owns, ClusterOf;
    forall h, c | Elsewhere(s, h) && c in s.owners[h] && c < |s.data|
      ensures u.data[c] == s.data[c]
    {
      assert Elsewhere(t, h) && c in t.owners[h];
    }
  }

  /** So every file elsewhere reads as before. */
  lemma OtherFile(s: Store, t: Store, h: nat, size: nat)
    requires OthersKept(s, t) && Elsewhere(s, h) && h != 0 && FileOk(s, h, size)
    ensures FileOk(t, h, size) && FileAt(t, h, size) == FileAt(s, h, size)
  {
    hide Owns, ClusterOf;
    ContentKept(s.data, t.data, s.owners[h], s.cs, size);
  }

  /** A step on one chain that belongs to an entry of the directory, or to nothing yet. */
  lemma FrameOthers(s: Store, t: Store, head: nat)
    requires Frame(s, t, head) && t.slots == s.slots && !Elsewhere(s, head)
    requires head == s.home ==> t.owners == s.owners
    ensures OthersKept(s, t)
  {
    hide Owns, ClusterOf;
  }

  /** Such a step, and a slot that does not refer to chains of other directories. */
  lemma EditOthers(s: Store, s1: Store, i: nat, e: Slot, head: nat)
    requires Frame(s, s1, head) && s1.slots == s.slots && i < |s.slots| && !Elsewhere(s, head)
    requires Owns(e) ==> !Elsewhere(s, ClusterOf(s.kind, e))
    requires head == s.home ==> s1.owners == s.owners
    ensures OthersKept(s, s1.(slots := s.slots[i := e]))
  {
    hide Owns, ClusterOf;
    var t := s1.(slots := s.slots[i := e]);
    forall h | Elsewhere(s, h)
      ensures Elsewhere(t, h)
    {
      assert forall x | x in t.slots :: x == e || x in s.slots;
    }
  }

  lemma OwnNotElsewhere(s: Store, i: nat)
    requires i < |s.slots| && Owns(s.slots[i])
    ensures !Elsewhere(s, ClusterOf(s.kind, s.slots[i]))
  {
    assert s.slots[i] in s.slots;
  }

  lemma ZeroNotElsewhere(s: Store)
    requires TableOk(s)
    ensures 0 !in s.owners && !Elsewhere(s, 0)
  {
    if 0 in s.owners {
      Last(s.fat, s.Eof(), s.Lim(), s.owners, 0);
    }
  }

  // ---- allocation ----

  /** Allocation takes a cluster on the device while there is one, then one past its end, then fails. */
  lemma AllocWhere(s: Store, c: nat)
    requires 2 <= |s.data| && 2 <= |s.fat| && (s.Lim() == |s.fat| || s.Space().spare > 0)
    requires if c == 0 then forall d | 2 <= d < |s.fat| :: s.fat[d] != 0
             else 2 <= c < |s.fat| && s.fat[c] == 0 && forall d | 2 <= d < c :: s.fat[d] != 0
    ensures c == 0 <==> s.Space().free == 0 && s.Space().spare == 0
    ensures c != 0 ==> c < s.Lim() && (c < |s.data| <==> s.Space().free > 0)
  {
    hide FatCodec.Eof;
    EmptyFree(s.fat, 2, s.End());
    EmptyFree(s.fat, s.End(), s.Lim());
    if 2 <= c < s.End() {
      assert s.fat[c] == 0;
    }
  }

  /** The counts after entry `c` of the table stops being free. */
  lemma AllocSpace(s: Store, c: nat, v: nat)
    requires 2 <= |s.data| && 2 <= c < s.Lim() && s.fat[c] == 0 && v != 0
    ensures var sp := s.(fat := s.fat[c := v]).Space();
            s.Space() == if c < |s.data| then sp.(free := sp.free + 1) else sp.(spare := sp.spare + 1)
  {
    hide FatCodec.Eof;
    var t := s.fat[c := v];
    if c < s.End() {
      assert FreeSet(t, 2, s.End()) == FreeSet(s.fat, 2, s.End()) - {c};
      assert FreeSet(t, s.End(), s.Lim()) == FreeSet(s.fat, s.End(), s.Lim());
    } else {
      assert FreeSet(t, 2, s.End()) == FreeSet(s.fat, 2, s.End());
      assert FreeSet(t, s.End(), s.Lim()) == FreeSet(s.fat, s.End(), s.Lim()) - {c};
    }
  }

  lemma EmptyFree(fat: seq<nat>, lo: nat, hi: nat)
    requires hi <= |fat|
    ensures |FreeSet(fat, lo, hi)| == 0 <==> forall d | lo <= d < hi :: fat[d] != 0
  {
    var f := FreeSet(fat, lo, hi);
    if |f| == 0 {
      forall d: nat | lo <= d < hi
        ensures fat[d] != 0
      {
        assert d !in f;
      }
    } else {
      var d :| d in f;
    }
  }

  // ---- elementary steps ----

  /** A fresh chain of one cluster. */
  lemma StepNew(s: Store, c: nat)
    requires Inv(s) && 2 <= c < s.Lim() && s.fat[c] == 0
    ensures var t := s.(fat := s.fat[c := s.Eof()], owners := s.owners[c := [c]]);
      && Inv(t) && Frame(s, t, c) && c !in s.owners && FileOk(t, c, 0)
      && FileAt(t, c, 0) == (if c < |s.data| then FM.File([], 1, false) else FM.File([], 0, true))
  {
    hide FatCodec.Eof, Partition, WellFormed, Owns, ClusterOf, Extent, Apart, Content;
    NewChain(s.fat, s.Eof(), s.Lim(), s.owners, c);
    var t := s.(fat := s.fat[c := s.Eof()], owners := s.owners[c := [c]]);
    assert Content(t.data, [c], t.cs, 0) == [];
    KeepSlots(s, t, c);
  }

  /** Slots whose files the step does not touch stay in order. */
  lemma KeepSlots(s: Store, t: Store, head: nat)
    requires Inv(s) && Frame(s, t, head) && t.slots == s.slots
    requires forall e | e in s.slots && Owns(e) && ClusterOf(s.kind, e) == head != 0 :: FileOk(t, head, Extent(e))
    ensures forall i | 0 <= i < |t.slots| :: SlotOk(t, t.slots[i])
  {
    hide Owns, ClusterOf, Extent, FileOk;
    forall i | 0 <= i < |t.slots| && Owns(t.slots[i])
      ensures FileOk(t, ClusterOf(t.kind, t.slots[i]), Extent(t.slots[i]))
    {
      var h := ClusterOf(s.kind, s.slots[i]);
      assert SlotOk(s, s.slots[i]);
      if h == 0 {
        NoChain(s, t, Extent(s.slots[i]));
      } else if h != head {
        FramedFile(s, t, head, h, Extent(s.slots[i]));
      }
    }
  }

  lemma NoChain(s: Store, t: Store, size: nat)
    ensures FileOk(s, 0, size) ==> FileOk(t, 0, size)
  {
  }

  function LastOf(chain: seq<nat>): nat { if |chain| > 0 then chain[|chain| - 1] else 0 }

  /** Cluster `c` allocated and linked behind the chain of `h`. */
  ghost function Extended(s: Store, h: nat, c: nat): Store
    requires h in s.owners && c < |s.fat|
  {
    var last := LastOf(s.owners[h]);
    s.(fat := if last < |s.fat| then s.fat[c := s.Eof()][last := c] else s.fat,
       owners := s.owners[h := s.owners[h] + [c]])
  }

  /** One more cluster at the end of a chain that is wholly on the device. */
  lemma StepExtend(s: Store, h: nat, c: nat, size: nat)
    requires Inv(s) && 2 <= c < s.Lim() && s.fat[c] == 0 && h != 0 && h != s.home
    requires FileOk(s, h, size) && !FileAt(s, h, size).stuck
    ensures var t := Extended(s, h, c);
      && Inv(t) && Frame(s, t, h) && FileOk(t, h, size)
      && FileAt(t, h, size) == (if c < |s.data| then FileAt(s, h, size).(clusters := |s.owners[h]| + 1)
                                else FileAt(s, h, size).(stuck := true))
  {
    hide FatCodec.Eof, Partition, WellFormed, Owns, ClusterOf, Extent, Apart, Content, Pos;
    var chain := s.owners[h];
    assert |chain| > 0 && chain[|chain| - 1] < |s.fat| by { LastLinked(s, h); }
    ExtendChain(s.fat, s.Eof(), s.Lim(), s.owners, h, c);
    var t := Extended(s, h, c);
    ExtendInRange(s, c, chain[|chain| - 1]);
    ContentLonger(s.data, chain, c, s.cs, size);
    forall e | e in s.slots && Owns(e) && ClusterOf(s.kind, e) == h
      ensures FileOk(t, h, Extent(e))
    {
      assert SlotOk(s, e);
      PosMonotone(|chain|, OnDevice(chain + [c], |s.data|), s.cs);
    }
    PosMonotone(|chain|, OnDevice(chain + [c], |s.data|), s.cs);
    KeepSlots(s, t, h);
  }

  lemma LastLinked(s: Store, h: nat)
    requires TableOk(s) && h in s.owners
    ensures |s.owners[h]| > 0 && s.owners[h][|s.owners[h]| - 1] < s.Lim()
  {
    Last(s.fat, s.Eof(), s.Lim(), s.owners, h);
  }

  lemma ExtendInRange(s: Store, c: nat, last: nat)
    requires InRange(s.fat, s.Eof()) && 2 <= c < |s.fat| && last < |s.fat|
    ensures InRange(s.fat[c := s.Eof()][last := c], s.Eof())
  {
  }

  /** New contents for one cluster of a file. */
  lemma StepData(s: Store, h: nat, idx: nat, o: nat, w: seq<byte>, size: nat)
    requires Inv(s) && h != 0 && h != s.home && FileOk(s, h, size)
    requires idx < |s.owners[h]| && s.owners[h][idx] < |s.data| && o + |w| <= s.cs
    requires Pos(idx, s.cs, o) <= size
    ensures var c := s.owners[h][idx];
      && c >= 2 && |s.data[c]| == s.cs
      && var t, n := s.(data := s.data[c := Splice(s.data[c], o, w)]), FM.Max(size, Pos(idx, s.cs, o) + |w|);
      && Inv(t) && Frame(s, t, h) && FileOk(t, h, n) && t.Space() == s.Space()
      && FileAt(t, h, n) == FileAt(s, h, size).(bytes := FM.Overwrite(FileAt(s, h, size).bytes, Pos(idx, s.cs, o), w))
  {
    hide FatCodec.Eof, Partition, InRange, WellFormed, SlotOk, Apart, Content, Pos, Splice, Frame;
    var chain := s.owners[h];
    var c := chain[idx];
    assert c in chain;
    ChainDistinct(s, h);
    var t, n := s.(data := s.data[c := Splice(s.data[c], o, w)]), FM.Max(size, Pos(idx, s.cs, o) + |w|);
    WriteContent(s.data, chain, s.cs, size, idx, o, w);
    DataInv(s, t, h, c);
    PosInBlock(idx, s.cs, o, |w|, OnDevice(chain, |s.data|));
  }

  lemma DataInv(s: Store, t: Store, h: nat, c: nat)
    requires Inv(s) && h in s.owners && h != s.home && c in s.owners[h] && 2 <= c < |s.data|
    requires |t.data| == |s.data| && t == s.(data := s.data[c := t.data[c]]) && |t.data[c]| == s.cs
    ensures Inv(t) && Frame(s, t, h)
  {
    hide FatCodec.Eof, Partition, InRange, WellFormed, Owns, ClusterOf, Extent, Apart, Pos;
    DataFrame(s, t, h, c);
    forall e | e in s.slots && Owns(e) && ClusterOf(s.kind, e) == h != 0
      ensures FileOk(t, h, Extent(e))
    {
      assert SlotOk(s, e);
    }
    KeepSlots(s, t, h);
  }

  lemma DataFrame(s: Store, t: Store, h: nat, c: nat)
    requires TableOk(s) && h in s.owners && c in s.owners[h] && c < |s.data|
    requires |t.data| == |s.data| && t == s.(data := s.data[c := t.data[c]])
    ensures Frame(s, t, h)
  {
  }

  lemma ChainDistinct(s: Store, h: nat)
    requires TableOk(s) && h in s.owners
    ensures Distinct(s.owners[h]) && forall c | c in s.owners[h] :: c >= 2
  {
    var chain := s.owners[h];
    forall i, j | 0 <= i < j < |chain|
      ensures chain[i] != chain[j]
    {
      ChainIsAcyclic(s.fat, s.Eof(), chain, i, j);
    }
  }
}
