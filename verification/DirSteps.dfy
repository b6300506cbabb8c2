/** Steps on a store that change directory entries, and the map from names to files they represent. */
module DirSteps {
  import opened Bytes
  import opened FatCodec
  import opened Chains
  import opened Directory
  import opened Stores
  import FM = FileModel

  ghost function FileOf(s: Store, e: Slot): FM.File {
    FileAt(s, ClusterOf(s.kind, e), SizeOf(e))
  }

  ghost function FolderOf(s: Store, e: Slot): FM.Folder {
    if IsFolder(e) then FolderAt(s, ClusterOf(s.kind, e)) else FM.Marker
  }

  /** Both stores show the same behind entry `e`. */
  ghost predicate SameItem(s: Store, t: Store, e: Slot) {
    (IsFile(e) ==> FileOf(t, e) == FileOf(s, e)) && FolderOf(t, e) == FolderOf(s, e)
  }

  lemma FramedItem(s: Store, t: Store, head: nat, e: Slot)
    requires TableOk(s) && Frame(s, t, head) && SlotOk(s, e) && (Owns(e) ==> ClusterOf(s.kind, e) != head)
    ensures SameItem(s, t, e)
  {
    hide TableOk, Frame, FileOk, FileAt, FolderAt, ClusterOf, SizeOf, IsEntry, IsSubdir, IsDots;
    SameMode(t, s, t, head);
    if IsFile(e) {
      FramedFile(s, t, head, ClusterOf(s.kind, e), SizeOf(e));
    } else if IsFolder(e) {
      FramedFolder(s, t, head, ClusterOf(s.kind, e));
    }
  }

  /** The files of the directory by name. */
  ghost function Files(s: Store): map<Name, FM.File>
    requires UniqueNames(s.slots)
  {
    map n | n in DirMap(s.slots) && IsFile(DirMap(s.slots)[n]) :: FileOf(s, DirMap(s.slots)[n])
  }

  /** The subdirectories by name, and the markers. */
  ghost function Subdirs(s: Store): map<Name, FM.Folder>
    requires UniqueNames(s.slots)
  {
    map n | n in DirMap(s.slots) && !IsFile(DirMap(s.slots)[n]) :: FolderOf(s, DirMap(s.slots)[n])
  }

  /** Slots a new entry can use. */
  ghost function FreeSlots(ss: seq<Slot>): set<nat> {
    set i: nat | i < |ss| && IsFree(ss[i])
  }

  // ---- one slot replaced ----

  lemma SlotEdit(s: Store, i: nat, e: Slot)
    requires Inv(s) && i < |s.slots| && SlotOk(s, e)
    requires WellFormed(s.slots[i := e]) && Apart(s.kind, s.slots[i := e])
    ensures Inv(s.(slots := s.slots[i := e]))
  {
    hide WellFormed, Apart, Owns, IsFolder, ClusterOf, Extent, Partition, InRange, Eof;
    var t := s.(slots := s.slots[i := e]);
    forall k | 0 <= k < |t.slots|
      ensures SlotOk(t, t.slots[k])
    {
      assert SlotOk(s, t.slots[k]);
    }
  }

  /** The directory's own cluster rewritten: no file and no count changes. */
  lemma HomeEdit(s: Store, block: seq<byte>)
    requires Inv(s) && s.home != 0 && |block| == s.cs
    ensures s.home < |s.data|
    ensures var t := s.(data := s.data[s.home := block]);
      && Inv(t) && Frame(s, t, s.home) && t.Space() == s.Space()
      && forall e | e in s.slots :: SameItem(s, t, e)
  {
    hide WellFormed, Apart, Owns, IsFolder, ClusterOf, Extent, Eof, Content, Partition, InRange, FileAt, FileOk,
         Frame, FreeSet, SameItem;
    var t := s.(data := s.data[s.home := block]);
    HomeInChain(s);
    DataFrame(s, t, s.home, s.home);
    NoneAtHome(s, t);
    KeepSlots(s, t, s.home);
    forall e | e in s.slots
      ensures SameItem(s, t, e)
    {
      assert SlotOk(s, e);
      FramedItem(s, t, s.home, e);
    }
  }

  lemma NoneAtHome(s: Store, t: Store)
    requires Inv(s) && s.home != 0
    ensures forall e | e in s.slots && Owns(e) :: ClusterOf(s.kind, e) != s.home
  {
    hide Owns, IsFolder, ClusterOf, TableOk;
    assert forall e | e in s.slots :: SlotOk(s, e);
  }

  lemma HomeInChain(s: Store)
    requires TableOk(s) && s.home != 0
    ensures s.home in s.owners && s.home in s.owners[s.home] && s.home >= 2
  {
    Last(s.fat, s.Eof(), s.Lim(), s.owners, s.home);
    assert s.owners[s.home][0] in s.owners[s.home];
    ChainDistinct(s, s.home);
  }

  /** The head of an entry's chain: other entries have other heads. */
  lemma OtherHeads(s: Store, i: nat, head: nat)
    requires Inv(s) && i < |s.slots| && Owns(s.slots[i]) && head != 0
    requires ClusterOf(s.kind, s.slots[i]) == head || (ClusterOf(s.kind, s.slots[i]) == 0 && head !in s.owners)
    ensures forall j | 0 <= j < |s.slots| && j != i && Owns(s.slots[j]) :: ClusterOf(s.kind, s.slots[j]) != head
  {
    hide Owns, IsFolder, ClusterOf, Extent, WellFormed;
    forall j | 0 <= j < |s.slots| && j != i && Owns(s.slots[j])
      ensures ClusterOf(s.kind, s.slots[j]) != head
    {
      assert SlotOk(s, s.slots[j]);
    }
  }

  ghost predicate Fits(kind: Kind, head: nat, size: nat) {
    head < (if kind.Fat32? then 0x1_0000_0000 else 0x1_0000) && size < 0x1_0000_0000
  }

  /** The entry of a file brought up to date after its chain has been written. */
  lemma SetFile(s0: Store, s: Store, i: nat, head: nat, size: nat)
    requires Inv(s0) && Inv(s) && s.slots == s0.slots && s.home == s0.home && Frame(s0, s, head) && head != 0
    requires head != s.home
    requires i < |s0.slots| && IsFile(s0.slots[i]) && FileOk(s, head, size) && Fits(s.kind, head, size)
    requires ClusterOf(s0.kind, s0.slots[i]) == head || (ClusterOf(s0.kind, s0.slots[i]) == 0 && head !in s0.owners)
    ensures var e := WithFile(s.kind, s0.slots[i], head, size);
      var t := s.(slots := s.slots[i := e]);
      && Inv(t) && IsFile(e) && NameOf(e) == NameOf(s0.slots[i]) && ClusterOf(s.kind, e) == head && SizeOf(e) == size
      && Files(t) == Files(s0)[NameOf(e) := FileAt(s, head, size)] && Subdirs(t) == Subdirs(s0)
      && FreeSlots(t.slots) == FreeSlots(s0.slots)
  {
    hide ClusterOf, SizeOf, WithFile, TableOk, Eof, Content, FileAt, FileOk, UniqueNames, ZeroTail, IsFolder;
    var old_ := s0.slots[i];
    var e := WithFile(s.kind, old_, head, size);
    WithFileFields(s.kind, old_, head, size);
    SameKindOfEntry(old_, e);
    FileIsEntry(old_);
    FileIsEntry(e);
    OtherHeads(s0, i, head);
    ReplaceIsUpdate(s.slots, i, e);
    var t := s.(slots := s.slots[i := e]);
    SlotEdit(s, i, e);
    FilesAfter(s0, s, t, i, head, e);
  }

  lemma SameKindOfEntry(a: Slot, b: Slot)
    requires a[0] == b[0] && a[11] == b[11]
    ensures IsFile(a) == IsFile(b) && IsEntry(a) == IsEntry(b) && IsFree(a) == IsFree(b)
  {
  }

  lemma FilesAfter(s0: Store, s: Store, t: Store, i: nat, head: nat, e: Slot)
    requires Inv(s0) && UniqueNames(t.slots) && Frame(s0, s, head) && s.slots == s0.slots && i < |s0.slots|
    requires t == s.(slots := s.slots[i := e])
    requires IsFile(s0.slots[i]) && IsFile(e) && NameOf(e) == NameOf(s0.slots[i]) && ClusterOf(s.kind, e) == head
    requires DirMap(t.slots) == DirMap(s0.slots)[NameOf(e) := e]
    requires forall j | 0 <= j < |s0.slots| && j != i && Owns(s0.slots[j]) :: ClusterOf(s0.kind, s0.slots[j]) != head
    ensures Files(t) == Files(s0)[NameOf(e) := FileAt(s, head, SizeOf(e))] && Subdirs(t) == Subdirs(s0)
    ensures FreeSlots(t.slots) == FreeSlots(s0.slots)
  {
    hide ClusterOf, SizeOf, IsFile, IsFolder, Owns, Extent, IsEntry, NameOf, DirMap, Apart, Frame, FileAt, FolderAt,
         TableOk, ZeroTail, UniqueNames, FolderOf, SlotOk;
    SameMode(s, s0, t, head);
    MapHas(s0.slots);
    FileIsEntry(e);
    FileIsEntry(s0.slots[i]);
    assert EntryAt(s0.slots, i, NameOf(e));
    forall n | n in DirMap(s0.slots) && n != NameOf(e)
      ensures SameItem(s0, t, DirMap(s0.slots)[n])
    {
      var k :| EntryAt(s0.slots, k, n);
      var x := s0.slots[k];
      assert SlotOk(s0, x);
      FramedItem(s0, s, head, x);
      SlotsShowSame(s, t, x);
    }
    SlotsDoNotMatter(s, t, head, SizeOf(e));
    FreeSlotsAfter(s.slots, i, e);
  }

  lemma SameMode(s: Store, s0: Store, t: Store, head: nat)
    requires Frame(s0, s, head) && t.kind == s.kind
    ensures s0.kind == s.kind == t.kind
  {
  }

  lemma FileIsEntry(e: Slot)
    ensures IsFile(e) ==> IsEntry(e) && !IsFree(e) && Owns(e) && !IsFolder(e) && Extent(e) == SizeOf(e)
  {
  }

  lemma SlotsDoNotMatter(s: Store, t: Store, head: nat, size: nat)
    requires t == s.(slots := t.slots)
    ensures FileAt(t, head, size) == FileAt(s, head, size) && (FileOk(t, head, size) <==> FileOk(s, head, size))
  {
  }

  lemma SlotsShowSame(s: Store, t: Store, e: Slot)
    requires t == s.(slots := t.slots)
    ensures SameItem(s, t, e)
  {
    hide NoneUsed, Slots, IsFile, IsFolder;
  }

  lemma AllShowSame(s: Store, t: Store)
    requires t == s.(slots := t.slots)
    ensures forall x :: FileOf(t, x) == FileOf(s, x)
    ensures forall x :: FolderOf(t, x) == FolderOf(s, x)
  {
    hide NoneUsed, Slots, IsFile, IsFolder, ClusterOf, SizeOf;
    forall x: Slot
      ensures FileOf(t, x) == FileOf(s, x) && FolderOf(t, x) == FolderOf(s, x)
    {
      SlotsDoNotMatter(s, t, ClusterOf(s.kind, x), SizeOf(x));
      SlotsDoNotMatter(s, t, ClusterOf(s.kind, x), 0);
    }
  }

  // ---- entries added, removed, renamed ----

  const ATTR_ARC: byte := 0x20
  const ATTR_DIR: byte := 0x10

  lemma NewSlotFields(kind: Kind, name: Name, attr: byte, cluster: nat)
    requires Ordinary(name) && (attr == ATTR_ARC || attr == ATTR_DIR) && Fits(kind, cluster, 0)
    ensures var e := NewSlot(kind, name, attr, cluster);
      && NameOf(e) == name && IsEntry(e) && (IsFile(e) <==> attr == ATTR_ARC)
      && (IsFolder(e) <==> attr == ATTR_DIR && !IsDots(name))
      && ClusterOf(kind, e) == cluster && SizeOf(e) == 0
  {
    hide ClusterOf, SizeOf, WithFile, IsDots;
    var z: Slot := name + [attr] + seq(20, _ => 0);
    WithFileFields(kind, z, cluster, 0);
    assert z[..11] == name && z[0] == name[0] && z[11] == attr;
  }

  /** A change of slots alone changes the files by name as it changes the entries by name. */
  lemma FilesBySlot(s: Store, t: Store, n: Name, e: Slot)
    requires UniqueNames(s.slots) && UniqueNames(t.slots) && t == s.(slots := t.slots)
    requires DirMap(t.slots) == DirMap(s.slots)[n := e]
    ensures Files(t) == if IsFile(e) then Files(s)[n := FileOf(s, e)] else Files(s) - {n}
    ensures Subdirs(t) == if IsFile(e) then Subdirs(s) - {n} else Subdirs(s)[n := FolderOf(s, e)]
  {
    hide DirMap, IsFile, IsFolder, UniqueNames, FileOf, FolderOf, NameOf;
    AllShowSame(s, t);
  }

  lemma FilesWithout(s: Store, t: Store, n: Name)
    requires UniqueNames(s.slots) && UniqueNames(t.slots) && t == s.(slots := t.slots)
    requires DirMap(t.slots) == DirMap(s.slots) - {n}
    ensures Files(t) == Files(s) - {n} && Subdirs(t) == Subdirs(s) - {n}
  {
    hide DirMap, IsFile, IsFolder, UniqueNames, FileOf, FolderOf, NameOf;
    AllShowSame(s, t);
  }

  /** The cluster a new entry refers to: none for a file, for a subdirectory a chain of its own that begins on the
      device. */
  ghost predicate ForEntry(s: Store, attr: byte, cluster: nat) {
    if attr == ATTR_ARC then cluster == 0
    else
      && attr == ATTR_DIR && 0 != cluster < |s.data| && cluster != s.home && FileOk(s, cluster, 0)
      && forall e | e in s.slots && Owns(e) :: ClusterOf(s.kind, e) != cluster
  }

  /** A new entry: an empty file, or a subdirectory. */
  lemma AddEntry(s: Store, name: Name, attr: byte, cluster: nat)
    requires Inv(s) && Ordinary(name) && !Reserved(name) && name !in DirMap(s.slots) && FirstFree(s.slots, 0) >= 0
    requires ForEntry(s, attr, cluster) && Fits(s.kind, cluster, 0)
    ensures var i, e := FirstFree(s.slots, 0), NewSlot(s.kind, name, attr, cluster);
      var t := s.(slots := s.slots[i := e]);
      && Inv(t) && DirMap(t.slots) == DirMap(s.slots)[name := e] && ClusterOf(s.kind, e) == cluster
      && FreeSlots(t.slots) == FreeSlots(s.slots) - {i as nat} && i as nat in FreeSlots(s.slots)
      && (attr == ATTR_ARC ==> Files(t) == Files(s)[name := FM.File([], 0, false)] && Subdirs(t) == Subdirs(s) - {name})
      && (attr == ATTR_DIR ==> Files(t) == Files(s) - {name} && Subdirs(t) == Subdirs(s)[name := FolderAt(s, cluster)])
  {
    hide NewSlot, ClusterOf, SizeOf, DirMap, TableOk, IsDots, FileOk, FolderAt;
    NewSlotFields(s.kind, name, attr, cluster);
    var i: nat, e := FirstFree(s.slots, 0), NewSlot(s.kind, name, attr, cluster);
    AddIsUpdate(s.slots, e);
    var t := s.(slots := s.slots[i := e]);
    FileIsEntry(s.slots[i]);
    NotOwned(s.slots[i]);
    FileIsEntry(e);
    assert Owns(e) && Extent(e) == 0;
    NoSize(s);
    hide IsFile, IsFolder, Owns, Extent, IsEntry, IsFree, FirstFree, WellFormed;
    EntryNotFree(e);
    AddedApart(s.kind, s.slots, i, e);
    SlotEdit(s, i, e);
    UniqueOf(t.slots);
    UniqueOf(s.slots);
    FilesBySlot(s, t, name, e);
    FreeSlotsAfter(s.slots, i, e);
  }

  lemma NotOwned(e: Slot)
    ensures IsFree(e) ==> !Owns(e)
  {
  }

  lemma NoSize(s: Store)
    ensures FileOk(s, 0, 0)
  {
  }

  lemma AddedApart(kind: Kind, ss: seq<Slot>, i: nat, e: Slot)
    requires i < |ss| && Apart(kind, ss)
    requires ClusterOf(kind, e) == 0 || forall x | x in ss && Owns(x) :: ClusterOf(kind, x) != ClusterOf(kind, e)
    ensures Apart(kind, ss[i := e])
  {
    hide Owns, ClusterOf;
  }

  lemma EntryNotFree(e: Slot)
    ensures IsEntry(e) ==> !IsFree(e)
  {
  }

  lemma UniqueOf(ss: seq<Slot>)
    ensures WellFormed(ss) ==> UniqueNames(ss) && ZeroTail(ss)
  {
  }

  /** An entry marked deleted. */
  lemma DropEntry(s: Store, i: nat)
    requires Inv(s) && i < |s.slots| && IsEntry(s.slots[i])
    ensures var e := s.slots[i][0 := DELETED];
      var t, n := s.(slots := s.slots[i := e]), NameOf(s.slots[i]);
      && Inv(t) && Files(t) == Files(s) - {n} && Subdirs(t) == Subdirs(s) - {n} && !Owns(e)
      && FreeSlots(t.slots) == FreeSlots(s.slots) + {i} && i !in FreeSlots(s.slots)
  {
    hide ClusterOf, SizeOf, DirMap, TableOk;
    var e := s.slots[i][0 := DELETED];
    var t, n := s.(slots := s.slots[i := e]), NameOf(s.slots[i]);
    RemoveIsDelete(s.slots, i);
    assert IsFree(e) && !IsFree(s.slots[i]);
    NotOwned(e);
    hide IsFile, IsFolder, Owns, IsEntry, IsFree, WellFormed, NameOf;
    SlotEdit(s, i, e);
    UniqueOf(t.slots);
    UniqueOf(s.slots);
    FilesWithout(s, t, n);
    FreeSlotsAfter(s.slots, i, e);
  }

  function Renamed(e: Slot, name: Name): Slot { name + e[11..] }

  /** An entry under another name, in use by no entry. */
  lemma RenameEntry(s: Store, i: nat, name: Name)
    requires Inv(s) && i < |s.slots| && IsEntry(s.slots[i]) && Ordinary(name) && name !in DirMap(s.slots)
    requires !IsDots(name) && !IsDots(NameOf(s.slots[i]))
    ensures var e, n := Renamed(s.slots[i], name), NameOf(s.slots[i]);
      var t := s.(slots := s.slots[i := e]);
      && Inv(t) && (IsFile(e) <==> IsFile(s.slots[i])) && FreeSlots(t.slots) == FreeSlots(s.slots)
      && (IsFile(e) ==> n in Files(s) && Files(t) == (Files(s) - {n})[name := Files(s)[n]] && Subdirs(t) == Subdirs(s))
      && (!IsFile(e) ==>
            Files(t) == Files(s) && n in Subdirs(s) && Subdirs(t) == (Subdirs(s) - {n})[name := Subdirs(s)[n]])
  {
    var x := s.slots[i];
    var e, n := Renamed(x, name), NameOf(x);
    var t := s.(slots := s.slots[i := e]);
    RenamedFields(x, name, s.kind);
    ReplaceIsUpdate(s.slots, i, e);
    MapHas(s.slots);
    assert EntryAt(s.slots, i, n);
    hide ClusterOf, SizeOf, DirMap, TableOk, Renamed, IsFile, IsFolder, Owns, Extent, IsEntry, IsFree, NameOf, FileAt,
         FolderAt, Apart, UniqueNames, ZeroTail, FileOk, FreeSlots;
    FilesRenamed(s, t, i, e, name);
    assert FileOf(s, e) == FileOf(s, x) && FolderOf(s, e) == FolderOf(s, x);
    assert SlotOk(s, x) && SlotOk(s, e);
    RenamedApart(s.kind, s.slots, i, e);
    SlotEdit(s, i, e);
    FreeSlotsAfter(s.slots, i, e);
  }

  lemma FreeSlotsAfter(ss: seq<Slot>, i: nat, e: Slot)
    requires i < |ss|
    ensures IsFree(e) == IsFree(ss[i]) ==> FreeSlots(ss[i := e]) == FreeSlots(ss)
    ensures IsFree(ss[i]) && !IsFree(e) ==> i in FreeSlots(ss) && FreeSlots(ss[i := e]) == FreeSlots(ss) - {i}
    ensures !IsFree(ss[i]) && IsFree(e) ==> i !in FreeSlots(ss) && FreeSlots(ss[i := e]) == FreeSlots(ss) + {i}
  {
    hide IsFree;
    var t := ss[i := e];
    assert forall k: nat | k < |t| && k != i :: t[k] == ss[k];
  }

  lemma RenamedFields(x: Slot, name: Name, kind: Kind)
    requires Ordinary(name) && IsEntry(x)
    ensures var e := Renamed(x, name);
      && NameOf(e) == name && IsEntry(e) && !IsFree(e) && !IsFree(x) && (IsFile(e) <==> IsFile(x))
      && ClusterOf(kind, e) == ClusterOf(kind, x) && SizeOf(e) == SizeOf(x)
      && (!IsDots(name) && !IsDots(NameOf(x)) ==>
            (IsFolder(e) <==> IsFolder(x)) && (Owns(e) <==> Owns(x)) && Extent(e) == Extent(x))
  {
    hide IsDots;
    var e := Renamed(x, name);
    assert e[11..] == x[11..];
    assert forall k | 11 <= k < SLOT :: e[k] == e[11..][k - 11] == x[k];
  }

  lemma RenamedApart(kind: Kind, ss: seq<Slot>, i: nat, e: Slot)
    requires i < |ss| && Apart(kind, ss) && ClusterOf(kind, e) == ClusterOf(kind, ss[i]) && (Owns(e) <==> Owns(ss[i]))
    ensures Apart(kind, ss[i := e])
  {
    hide Owns, ClusterOf;
  }

  lemma FilesRenamed(s: Store, t: Store, i: nat, e: Slot, name: Name)
    requires UniqueNames(s.slots) && UniqueNames(t.slots) && t == s.(slots := t.slots) && i < |s.slots|
    requires name !in DirMap(s.slots) && NameOf(s.slots[i]) in DirMap(s.slots)
    requires DirMap(s.slots)[NameOf(s.slots[i])] == s.slots[i]
    requires DirMap(t.slots) == (DirMap(s.slots) - {NameOf(s.slots[i])})[name := e]
    requires (IsFile(e) <==> IsFile(s.slots[i]))
    ensures var n := NameOf(s.slots[i]);
      && (IsFile(e) ==> n in Files(s) && Files(t) == (Files(s) - {n})[name := FileOf(s, e)] && Subdirs(t) == Subdirs(s))
      && (!IsFile(e) ==> Files(t) == Files(s) && n in Subdirs(s) && Subdirs(t) == (Subdirs(s) - {n})[name := FolderOf(s,
          e)])
  {
    hide DirMap, IsFile, IsFolder, UniqueNames, FileOf, FolderOf, NameOf;
    AllShowSame(s, t);
  }

  // ---- a chain given back ----

  lemma StepDrop(s: Store, h: nat, size: nat)
    requires Inv(s) && h != 0 && h != s.home && FileOk(s, h, size)
    requires forall e | e in s.slots && Owns(e) :: ClusterOf(s.kind, e) != h
    ensures var t, f := s.(fat := Freed(s.fat, s.Eof(), h), owners := s.owners - {h}), FileAt(s, h, size);
      && Inv(t) && Frame(s, t, h)
      && t.Space() == FM.Space(s.Space().free + f.clusters, s.Space().spare + if f.stuck then 1 else 0)
      && Files(t) == Files(s) && Subdirs(t) == Subdirs(s)
  {
    hide FatCodec.Eof, Partition, Apart, IsFile, IsFolder, Owns, Extent, ClusterOf, SizeOf, Content, Freed, FreeSet,
         Pos, SameItem;
    var t := s.(fat := Freed(s.fat, s.Eof(), h), owners := s.owners - {h});
    DropChain(s.fat, s.Eof(), s.Lim(), s.owners, h);
    DropInRange(s, h);
    KeepSlots(s, t, h);
    DropSpace(s, h);
    forall e | e in s.slots
      ensures SameItem(s, t, e)
    {
      assert SlotOk(s, e);
      FramedItem(s, t, h, e);
    }
    FilesSame(s, t);
  }

  lemma FilesSame(s: Store, t: Store)
    requires UniqueNames(s.slots) && t.slots == s.slots && forall e | e in s.slots :: SameItem(s, t, e)
    ensures Files(t) == Files(s) && Subdirs(t) == Subdirs(s)
  {
    hide IsFile, IsEntry, NameOf, DirMap, FileOf, FolderOf;
    MapHas(s.slots);
    forall n | n in DirMap(s.slots)
      ensures DirMap(s.slots)[n] in s.slots
    {
      var k :| EntryAt(s.slots, k, n);
    }
  }

  lemma DropInRange(s: Store, h: nat)
    requires InRange(s.fat, s.Eof())
    ensures InRange(Freed(s.fat, s.Eof(), h), s.Eof())
  {
    hide Reach;
  }

  /** The clusters of a dropped chain become free, those past the device among the spare ones. */
  lemma DropSpace(s: Store, h: nat)
    requires TableOk(s) && h in s.owners && |s.owners[h]| > 0
    requires forall i | 0 <= i < |s.owners[h]| - 1 :: s.owners[h][i] < |s.data|
    ensures var t, k := s.(fat := Freed(s.fat, s.Eof(), h)), OnDevice(s.owners[h], |s.data|);
      t.Space() == FM.Space(s.Space().free + k, s.Space().spare + (|s.owners[h]| - k))
  {
    hide FatCodec.Eof, InRange, Partition, Freed, IsChain, FreeSet, Distinct, TableOk, OnDevice;
    var chain, k := s.owners[h], OnDevice(s.owners[h], |s.data|);
    var g := Freed(s.fat, s.Eof(), h);
    DropTable(s, h);
    DropSides(s, h);
    forall c | c in chain
      ensures c < |s.fat| && s.fat[c] != 0
    {
      BelowLim(s, h);
      ChainUsed(s.fat, s.Eof(), chain, c);
    }
    FreedPart(s.fat, g, chain, chain[..k], 2, s.End());
    FreedPart(s.fat, g, chain, chain[k..], s.End(), s.Lim());
  }

  lemma DropTable(s: Store, h: nat)
    requires TableOk(s) && h in s.owners
    ensures var g := Freed(s.fat, s.Eof(), h);
      |g| == |s.fat| && forall c | 0 <= c < |s.fat| :: g[c] == if c in s.owners[h] then 0 else s.fat[c]
  {
    hide FatCodec.Eof, InRange, Partition;
    DropChain(s.fat, s.Eof(), s.Lim(), s.owners, h);
  }

  /** The clusters of a chain on the device, and the one past it if there is one. */
  lemma DropSides(s: Store, h: nat)
    requires TableOk(s) && h in s.owners && |s.owners[h]| > 0
    requires forall i | 0 <= i < |s.owners[h]| - 1 :: s.owners[h][i] < |s.data|
    ensures var chain, k := s.owners[h], OnDevice(s.owners[h], |s.data|);
      && k <= |chain| && Distinct(chain[..k]) && Distinct(chain[k..])
      && (forall c | c in chain :: (c in chain[..k] <==> c < s.End()) && (c in chain[k..] <==> c >= s.End()))
      && (forall c | c in chain[..k] :: c in chain && 2 <= c < s.End())
      && (forall c | c in chain[k..] :: c in chain && s.End() <= c < s.Lim())
  {
    hide FatCodec.Eof, InRange, Partition, IsChain, FreeSet, TableOk;
    var chain, k := s.owners[h], OnDevice(s.owners[h], |s.data|);
    ChainDistinct(s, h);
    BelowLim(s, h);
    assert chain[..k] + chain[k..] == chain;
    forall c | c in chain
      ensures (c in chain[..k] <==> c < s.End()) && (c in chain[k..] <==> c >= s.End())
    {
      assert c in chain[..k] || c in chain[k..];
    }
  }

  lemma FreedPart(fat: seq<nat>, g: seq<nat>, chain: seq<nat>, part: seq<nat>, lo: nat, hi: nat)
    requires hi <= |fat| == |g| && Distinct(part)
    requires forall c | c in chain :: c < |fat| && fat[c] != 0
    requires forall c | 0 <= c < |fat| :: g[c] == if c in chain then 0 else fat[c]
    requires forall c | lo <= c < hi && c in chain :: c in part
    requires forall c | c in part :: c in chain && lo <= c < hi
    ensures |FreeSet(g, lo, hi)| == |FreeSet(fat, lo, hi)| + |part|
  {
    DistinctCount(part);
    assert FreeSet(g, lo, hi) == FreeSet(fat, lo, hi) + Elements(part);
    assert FreeSet(fat, lo, hi) !! Elements(part);
  }

  lemma BelowLim(s: Store, h: nat)
    requires TableOk(s) && h in s.owners
    ensures IsChain(s.fat, s.Eof(), s.owners[h]) && s.Eof() > 0
    ensures forall c | c in s.owners[h] :: 2 <= c < s.Lim()
  {
    ChainDistinct(s, h);
    LastLinked(s, h);
  }
}
