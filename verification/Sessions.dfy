/** Open handles over a store: what they must agree with, and the view they give to callers. */
module Sessions {
  import opened Bytes
  import opened FatCodec
  import opened Directory
  import opened Chains
  import opened Stores
  import opened Writing
  import opened Chunks
  import opened DirSteps
  import opened FsModel
  import FM = FileModel

  const MAX_HANDLES := 8

  /** `slot` is the entry's position in the directory, 1/32 of its byte offset. */
  datatype Handle = Handle(inUse: bool, firstCluster: nat, size: nat, pos: nat, slot: nat)

  ghost predicate HandleOk(s: Store, h: Handle) {
    h.inUse ==>
      && h.slot < |s.slots| && IsFile(s.slots[h.slot])
      && h.firstCluster == ClusterOf(s.kind, s.slots[h.slot]) && h.size == SizeOf(s.slots[h.slot]) && h.pos <= h.size
  }

  ghost predicate HandlesOk(s: Store, hs: seq<Handle>) {
    forall i | 0 <= i < |hs| :: HandleOk(s, hs[i])
  }

  ghost function HandleViewOf(s: Store, h: Handle): HandleView {
    if h.inUse && h.slot < |s.slots| then Opened(NameOf(s.slots[h.slot]), h.pos) else Closed
  }

  ghost function ViewOf(s: Store, hs: seq<Handle>): View
    requires Inv(s)
  {
    View(Files(s), Subdirs(s), |FreeSlots(s.slots)|, s.Space(), seq(|hs|,
        i requires 0 <= i < |hs| => HandleViewOf(s, hs[i])))
  }

  lemma ClosedHandle(s: Store, hs: seq<Handle>, h: int)
    requires Inv(s) && (h < 0 || h >= |hs| || !hs[h].inUse)
    ensures !IsOpen(ViewOf(s, hs), h)
  {
  }

  lemma UseOfHandle(s: Store, hs: seq<Handle>, h: nat)
    requires Inv(s) && h < |hs| && HandlesOk(s, hs)
    ensures |ViewOf(s, hs).handles| == |hs| && (hs[h].inUse <==> ViewOf(s, hs).handles[h].Opened?)
  {
    hide Inv, Files, Subdirs, FreeSlots, IsFile;
    assert HandleOk(s, hs[h]);
  }

  /** Looking a name up in the directory is looking it up among the files and subdirectories. */
  lemma FoundFile(s: Store, hs: seq<Handle>, name: Name, i: int)
    requires Inv(s) && i == FindFrom(s.slots, name, 0)
    ensures var a := ViewOf(s, hs);
      && (i == -1 <==> !Taken(a, name))
      && (i >= 0 ==>
            NameOf(s.slots[i]) == name && IsEntry(s.slots[i]) && (IsFile(s.slots[i]) <==> !IsSubdir(s.slots[i]))
                     && (name in a.files <==> IsFile(s.slots[i])) && (name in a.subdirs <==> !IsFile(s.slots[i])))
      && (i >= 0 && IsFile(s.slots[i]) ==>
            a.files[name] == FileOf(s, s.slots[i]) && |a.files[name].bytes| == SizeOf(s.slots[i]))
      && (i >= 0 && !IsFile(s.slots[i]) ==> a.subdirs[name] == FolderOf(s, s.slots[i]))
  {
    hide ClusterOf, SizeOf, DirMap, FileOf, FolderOf, IsVolume, IsSubdir, NameOf;
    FindIsLookup(s.slots, name);
    if i >= 0 && IsFile(s.slots[i]) {
      NamedFile(s, i);
    }
  }

  /** A handle in use names a file of the directory, the one its slot holds. */
  lemma OpenHandle(s: Store, hs: seq<Handle>, h: nat)
    requires Inv(s) && h < |hs| && hs[h].inUse && HandlesOk(s, hs)
    ensures var e, a := s.slots[hs[h].slot], ViewOf(s, hs);
      && IsOpen(a, h) && a.handles[h] == Opened(NameOf(e), hs[h].pos) && a.files[NameOf(e)] == FileOf(s, e)
      && |FileOf(s, e).bytes| == hs[h].size && IsFile(e) && HandleOk(s, hs[h])
  {
    hide IsFile, IsEntry, NameOf, DirMap, ClusterOf, SizeOf, FileAt;
    var i := hs[h].slot;
    assert HandleOk(s, hs[h]);
    NamedFile(s, i);
  }

  lemma NamedFile(s: Store, i: nat)
    requires Inv(s) && i < |s.slots| && IsFile(s.slots[i])
    ensures var e := s.slots[i];
      && NameOf(e) in Files(s) && Files(s)[NameOf(e)] == FileOf(s, e) && |FileOf(s, e).bytes| == SizeOf(e)
  {
    hide NameOf, DirMap, ClusterOf, SizeOf;
    MapHas(s.slots);
    assert EntryAt(s.slots, i, NameOf(s.slots[i]));
    assert SlotOk(s, s.slots[i]);
    FileIsEntry(s.slots[i]);
  }

  /** One handle replaced: the view changes at that handle only. */
  lemma SetHandle(s: Store, hs: seq<Handle>, h: nat, x: Handle)
    requires Inv(s) && h < |hs|
    ensures ViewOf(s, hs[h := x]) == ViewOf(s, hs).(handles := ViewOf(s, hs).handles[h := HandleViewOf(s, x)])
    ensures HandlesOk(s, hs) && HandleOk(s, x) ==> HandlesOk(s, hs[h := x])
  {
    hide HandleOk, HandleViewOf, Inv, Files, Subdirs, FreeSlots, FreeSet;
    var a, b := ViewOf(s, hs[h := x]).handles, ViewOf(s, hs).handles[h := HandleViewOf(s, x)];
    assert forall i | 0 <= i < |hs| :: a[i] == b[i];
    assert a == b;
  }

  /** The store after slot `i` of the directory has been rewritten on the device. */
  ghost function Edited(s: Store, i: nat, e: Slot): Store
    requires i < |s.slots|
  {
    var t := s.(slots := s.slots[i := e]);
    if s.home == 0 || s.home >= |s.data| || i * SLOT + SLOT > |s.data[s.home]| then t
    else t.(data := s.data[s.home := Splice(s.data[s.home], i * SLOT, e)])
  }

  lemma SlotCount(buf: seq<byte>, i: nat)
    requires i < |Slots(buf)|
    ensures (i + 1) * SLOT <= |buf| && Slots(buf)[i] == SlotAt(buf, i)
  {
  }

  lemma SlotTotal(buf: seq<byte>)
    ensures |Slots(buf)| == |buf| / SLOT
  {
  }

  ghost predicate HomeOk(s: Store) {
    s.home != 0 ==> s.home < |s.data| && |s.data[s.home]| == s.cs
  }

  lemma InUse(s: Store, f: Handle)
    requires Inv(s) && HandleOk(s, f) && f.inUse
    ensures FileOk(s, f.firstCluster, f.size) && FileOf(s, s.slots[f.slot]) == FileAt(s, f.firstCluster, f.size)
    ensures |FileAt(s, f.firstCluster, f.size).bytes| == f.size
  {
    hide IsFile, IsFolder, Owns, Extent;
    assert SlotOk(s, s.slots[f.slot]);
    FileIsEntry(s.slots[f.slot]);
  }

  lemma SizeOfFile(s: Store, head: nat, size: nat)
    requires FileOk(s, head, size)
    ensures |FileAt(s, head, size).bytes| == size
  {
  }

  // ---- one call of fs_read ----

  lemma ReadableHandle(s: Store, hs: seq<Handle>, h: nat)
    requires Inv(s) && HandlesOk(s, hs) && h < |hs| && hs[h].inUse
    ensures FileOk(s, hs[h].firstCluster, hs[h].size) && hs[h].pos <= hs[h].size
  {
    hide Inv;
    assert HandleOk(s, hs[h]);
    InUse(s, hs[h]);
  }

  lemma ReadEnds(s: Store, hs: seq<Handle>, h: nat, n: nat, out: seq<byte>)
    requires Inv(s) && HandlesOk(s, hs) && h < |hs| && hs[h].inUse
    requires out == ReadAt(FileAt(s, hs[h].firstCluster, hs[h].size).bytes, hs[h].pos, n)
    ensures Agrees(s, hs, s, hs[h := hs[h].(pos := hs[h].pos + |out|)], Read(h, n), Data(out))
  {
    hide Inv, Files, Subdirs, FreeSlots, FileAt, IsFile, ClusterOf, SizeOf, NameOf, FileOf, OthersKept;
    OthersSame(s);
    var f, x := hs[h], hs[h].(pos := hs[h].pos + |out|);
    OpenHandle(s, hs, h);
    InUse(s, f);
    BlocksPositive(s);
    assert HandleOk(s, x);
    SetHandle(s, hs, h, x);
  }

  // ---- the directory rewritten ----

  /** Rewriting a slot on the device is the change of that slot and nothing more. */
  lemma EditedKeeps(s: Store, i: nat, e: Slot)
    requires i < |s.slots| && HomeOk(s) && Inv(s.(slots := s.slots[i := e]))
    ensures var t, u := s.(slots := s.slots[i := e]), Edited(s, i, e);
      && Inv(u) && u.slots == t.slots && u.kind == s.kind && u.cs == s.cs && u.Space() == t.Space()
      && Files(u) == Files(t) && Subdirs(u) == Subdirs(t) && OthersKept(t, u)
  {
    hide TableOk, WellFormed, SlotOk, Apart, Splice, SameItem, Elsewhere, OthersKept, Frame;
    var t, u := s.(slots := s.slots[i := e]), Edited(s, i, e);
    if u != t {
      HomeEdit(t, u.data[s.home]);
      UniqueOf(t.slots);
      FilesSame(t, u);
      HomeNotElsewhere(t);
      FrameOthers(t, u, s.home);
    } else {
      OthersSame(t);
    }
  }

  lemma HomeNotElsewhere(s: Store)
    ensures !Elsewhere(s, s.home)
  {
  }

  /** A slot rewritten after a step on one chain: nothing happens to the chains of other directories. */
  lemma EditedOthers(s: Store, s1: Store, i: nat, e: Slot, head: nat)
    requires Frame(s, s1, head) && s1.slots == s.slots && i < |s.slots| && HomeOk(s1) && !Elsewhere(s, head)
    requires (Owns(e) ==> !Elsewhere(s, ClusterOf(s.kind, e))) && (head == s.home ==> s1.owners == s.owners)
    requires Inv(s1.(slots := s1.slots[i := e]))
    ensures OthersKept(s, Edited(s1, i, e))
  {
    hide Frame, Elsewhere, OthersKept, Inv, Owns, ClusterOf;
    EditOthers(s, s1, i, e, head);
    EditedKeeps(s1, i, e);
    OthersTrans(s, s1.(slots := s.slots[i := e]), Edited(s1, i, e));
  }

  lemma HomeIsOk(s: Store)
    requires Inv(s)
    ensures HomeOk(s) && s.cs > 0
  {
    hide WellFormed, SlotOk, Apart;
    if s.home != 0 {
      HomeInChain(s);
    }
  }

  /** Handles on other slots do not notice. */
  lemma OtherHandles(s: Store, u: Store, hs: seq<Handle>, i: nat, e: Slot)
    requires HandlesOk(s, hs) && i < |s.slots| && u.slots == s.slots[i := e] && u.kind == s.kind
    ensures forall k | 0 <= k < |hs| && (hs[k].inUse ==> hs[k].slot != i) ::
              HandleOk(u, hs[k]) && HandleViewOf(u, hs[k]) == HandleViewOf(s, hs[k])
  {
    hide IsFile, ClusterOf, SizeOf, NameOf;
    assert forall k | 0 <= k < |hs| :: HandleOk(s, hs[k]);
  }

  /** A call that ends in store `u` with handles `gs` is one step of the view, and other directories do not notice
      it. */
  ghost predicate Agrees(s: Store, hs: seq<Handle>, u: Store, gs: seq<Handle>, op: Op, reply: Reply)
    requires Inv(s)
  {
    && Inv(u) && HandlesOk(u, gs) && s.cs > 0 && u.cs == s.cs && Step(s.cs, ViewOf(s, hs), op) == (ViewOf(u, gs), reply)
    && OthersKept(s, u)
  }

  // ---- one call of fs_write ----

  lemma LegalWrite(tight: bool, s: Store, hs: seq<Handle>, h: nat, buf: seq<byte>)
    requires Inv(s) && HandlesOk(s, hs) && h < |hs| && hs[h].inUse
    requires Legal(tight, ViewOf(s, hs), Write(h, buf)) && (tight ==> |s.fat| <= s.Eof())
    ensures CanAlloc(s) && hs[h].pos + |buf| < 0x1_0000_0000
    ensures forall k | 0 <= k < |hs| && k != h && hs[k].inUse :: hs[k].slot != hs[h].slot
  {
    OpenHandle(s, hs, h);
    hide Inv, Files, Subdirs, FreeSlots, IsFile, ClusterOf, SizeOf, NameOf, FileOf, FatCodec.Eof;
    var a := ViewOf(s, hs);
    forall k | 0 <= k < |hs| && k != h && hs[k].inUse
      ensures hs[k].slot != hs[h].slot
    {
      assert HandleOk(s, hs[k]);
      assert a.handles[k] == Opened(NameOf(s.slots[hs[k].slot]), hs[k].pos);
    }
  }

  lemma EmptyFile(s: Store, e: Slot)
    ensures ClusterOf(s.kind, e) == 0 ==> FileOf(s, e) == FM.File([], 0, false)
  {
  }

  /** Not even a first cluster: nothing happens. */
  lemma WriteRefused(s: Store, hs: seq<Handle>, h: nat, buf: seq<byte>)
    requires Inv(s) && HandlesOk(s, hs) && h < |hs| && hs[h].inUse && hs[h].firstCluster == 0
    requires s.Space() == FM.Space(0, 0)
    ensures Agrees(s, hs, s, hs, Write(h, buf), Code(-1))
  {
    hide Inv, Files, Subdirs, FreeSlots, IsFile, ClusterOf, SizeOf, NameOf, FatCodec.Eof, HandlesOk, FileAt,
         OthersKept;
    OthersSame(s);
    OpenHandle(s, hs, h);
    BlocksPositive(s);
    EmptyFile(s, s.slots[hs[h].slot]);
    var a := ViewOf(s, hs);
    assert a.files[a.handles[h].name] == FM.File([], 0, false);
    assert a.files[a.handles[h].name := FM.File([], 0, false)] == a.files;
    assert a.handles[h := a.handles[h]] == a.handles;
  }

  /** The store the write loop starts from: the file has a chain, a fresh one if it had none. */
  ghost predicate Started(s: Store, s0: Store, f: Handle, first: nat) {
    if f.firstCluster != 0 then s0 == s && first == f.firstCluster
    else
      && 2 <= first < s.Lim() && s.fat[first] == 0
      && (first < |s.data| <==> s.Space().free > 0) && (first >= |s.data| ==> s.Space().spare > 0)
      && s0 == s.(fat := s.fat[first := s.Eof()], owners := s.owners[first := [first]])
  }

  lemma WriteStarts(s: Store, s0: Store, f: Handle, first: nat)
    requires Inv(s) && HandleOk(s, f) && f.inUse && CanAlloc(s) && Started(s, s0, f, first)
    ensures CanWrite(s0, first, f.size, f.pos) && CanGrow(s0, first, f.size) && Frame(s, s0, first)
    ensures s0.slots == s.slots && s0.home == s.home && s0.kind == s.kind && s0.cs == s.cs
    ensures Inv(s0) && first < s.Lim() && (f.firstCluster == 0 ==> first !in s.owners) && !Elsewhere(s, first)
    ensures (FileAt(s0, first, f.size), s0.Space()) == FM.FirstCluster(FileOf(s, s.slots[f.slot]), s.Space())
  {
    hide FatCodec.Eof, IsFile, IsFolder, Owns, Extent, ClusterOf, SizeOf, WellFormed, Apart, Partition, InRange,
         Content, FreeSet, Pos;
    InUse(s, f);
    FileIsEntry(s.slots[f.slot]);
    assert SlotOk(s, s.slots[f.slot]);
    if f.firstCluster == 0 {
      StepNew(s, first);
      assert s.Eof() > 0 by { EofPositive(s.kind); }
      AllocSpace(s, first, s.Eof());
      SpaceOfFat(s.(fat := s.fat[first := s.Eof()]), s0);
      HomeUsed(s, first);
    } else {
      FileIsSound(s, first, f.size);
      HeadBelowLim(s, first);
      OwnNotElsewhere(s, f.slot);
    }
  }

  lemma HeadBelowLim(s: Store, h: nat)
    requires TableOk(s) && h in s.owners
    ensures h < s.Lim()
  {
    LastInChain(s, h);
    assert s.owners[h][0] in s.owners[h];
  }

  lemma LastInChain(s: Store, h: nat)
    requires TableOk(s) && h in s.owners
    ensures |s.owners[h]| > 0 && s.owners[h][0] == h
  {
    Last(s.fat, s.Eof(), s.Lim(), s.owners, h);
  }

  lemma EofPositive(kind: Kind)
    ensures FatCodec.Eof(kind) > 0
  {
  }

  lemma SpaceOfFat(s: Store, t: Store)
    requires t.kind == s.kind && t.fat == s.fat && t.data == s.data
    ensures t.Space() == s.Space()
  {
  }

  lemma HomeUsed(s: Store, c: nat)
    requires Inv(s) && c < |s.fat| && s.fat[c] == 0
    ensures c != 0 ==> c != s.home
  {
    if c != 0 && c == s.home {
      HomeInChain(s);
      LastUsed(s, c, c);
    }
  }

  /** After the loop the entry is rewritten and the handle moved: what callers see is one abstract step. */
  lemma WriteEnds(s: Store, hs: seq<Handle>, s0: Store, s1: Store, h: nat, first: nat, buf: seq<byte>, total: nat)
    requires Inv(s) && HandlesOk(s, hs) && h < |hs| && hs[h].inUse && CanAlloc(s) && Started(s, s0, hs[h], first)
    requires CanWrite(s0, first, hs[h].size, hs[h].pos) && total <= |buf|
    requires Written(s0, s1, first, hs[h].size, hs[h].pos, buf, total)
    requires hs[h].pos + |buf| < 0x1_0000_0000
    requires forall k | 0 <= k < |hs| && k != h && hs[k].inUse :: hs[k].slot != hs[h].slot
    ensures HomeOk(s1) && hs[h].slot < |s.slots| && s1.slots == s.slots
    ensures var f, size := hs[h], FM.Max(hs[h].size, hs[h].pos + total);
            Agrees(s, hs, Edited(s1, f.slot, WithFile(s.kind, s.slots[f.slot], first, size)),
                   hs[h := Handle(true, first, size, f.pos + total, f.slot)], Write(h, buf), Code(total))
  {
    hide SlotOk, FileOk, FileAt, FileOf, Files, Subdirs, FreeSlots, Frame, WithFile, IsFile, ClusterOf, SizeOf,
         NameOf, FM.Write, FM.FirstCluster, TableOk, Edited, Apart, HandleViewOf, Elsewhere, OthersKept, IsFolder,
         Owns;
    var f := hs[h];
    var i, size := f.slot, FM.Max(f.size, f.pos + total);
    OpenHandle(s, hs, h);
    WriteStarts(s, s0, f, first);
    FrameTrans(s, s0, s1, first);
    FitsEntry(s, first, size);
    SetFile(s, s1, i, first, size);
    HomeIsOk(s1);
    var e, x := WithFile(s.kind, s.slots[i], first, size), Handle(true, first, size, f.pos + total, i);
    EditedKeeps(s1, i, e);
    var u := Edited(s1, i, e);
    OtherHandles(s, u, hs, i, e);
    NewHandle(u, x);
    FileIsSound(s0, first, f.size);
    FM.WriteFirst(s.cs, FileOf(s, s.slots[i]), s.Space(), f.pos, buf);
    ViewAfterWrite(s, u, hs, h, x, buf, total, FileAt(s1, first, size));
    EditedOthers(s, s1, i, e, first);
  }

  lemma NewHandle(u: Store, x: Handle)
    requires x.slot < |u.slots| && IsFile(u.slots[x.slot]) && x.inUse && x.pos <= x.size
    requires x.firstCluster == ClusterOf(u.kind, u.slots[x.slot]) && x.size == SizeOf(u.slots[x.slot])
    ensures HandleOk(u, x) && HandleViewOf(u, x) == Opened(NameOf(u.slots[x.slot]), x.pos)
  {
  }

  lemma FitsEntry(s: Store, first: nat, size: nat)
    requires first < s.Lim() && size < 0x1_0000_0000
    ensures Fits(s.kind, first, size)
  {
  }

  lemma ViewAfterWrite(s: Store, u: Store, hs: seq<Handle>, h: nat, x: Handle, buf: seq<byte>, total: nat, g: FM.File)
    requires Inv(s) && Inv(u) && h < |hs| && s.cs > 0 && IsOpen(ViewOf(s, hs), h)
    requires var name, pos := ViewOf(s, hs).handles[h].name, ViewOf(s, hs).handles[h].pos;
      && Files(u) == Files(s)[name := g] && Subdirs(u) == Subdirs(s) && FreeSlots(u.slots) == FreeSlots(s.slots)
      && FM.Write(s.cs, Files(s)[name], s.Space(), pos, buf) == (g, u.Space(), total)
      && HandleViewOf(u, x) == Opened(name, pos + total)
    requires forall k | 0 <= k < |hs| && k != h :: HandleViewOf(u, hs[k]) == HandleViewOf(s, hs[k])
    ensures Step(s.cs, ViewOf(s, hs), Write(h, buf)) == (ViewOf(u, hs[h := x]), Code(total))
  {
    hide Inv, Files, Subdirs, FreeSlots, HandleViewOf, FM.Write;
    var a, b := ViewOf(s, hs), ViewOf(u, hs[h := x]);
    var name, pos := a.handles[h].name, a.handles[h].pos;
    assert FM.Count(total) == total;
    assert a.handles[h := Opened(name, pos + total)] == b.handles;
  }

  // ---- calls that change the directory ----

  lemma RoomIffFree(ss: seq<Slot>)
    ensures FirstFree(ss, 0) == -1 <==> |FreeSlots(ss)| == 0
  {
    var i := FirstFree(ss, 0);
    if i >= 0 {
      assert i as nat in FreeSlots(ss);
    } else {
      assert FreeSlots(ss) == {};
    }
  }


  /** No handle in use is on a slot that holds no file. */
  lemma NotInUse(s: Store, hs: seq<Handle>, i: nat)
    requires HandlesOk(s, hs) && i < |s.slots| && !IsFile(s.slots[i])
    ensures forall k | 0 <= k < |hs| :: hs[k].inUse ==> hs[k].slot != i
  {
    hide IsFile;
    assert forall k | 0 <= k < |hs| :: HandleOk(s, hs[k]);
  }

  lemma SameHandleViews(s: Store, u: Store, hs: seq<Handle>)
    requires Inv(s) && Inv(u) && forall k | 0 <= k < |hs| :: HandleViewOf(u, hs[k]) == HandleViewOf(s, hs[k])
    ensures ViewOf(u, hs).handles == ViewOf(s, hs).handles
  {
    hide Inv, Files, Subdirs, FreeSlots, HandleViewOf;
  }

  lemma CreateEnds(s: Store, hs: seq<Handle>, name: Name, i: nat)
    requires Inv(s) && HandlesOk(s, hs) && Ordinary(name) && !Reserved(name) && FindFrom(s.slots, name, 0) == -1
    requires FirstFree(s.slots, 0) == i
    ensures Agrees(s, hs, Edited(s, i, NewSlot(s.kind, name, ATTR_ARC, 0)), hs, Create(name), Code(0))
  {
    hide TableOk, WellFormed, SlotOk, Apart, NewSlot, IsFile, FindFrom, FirstFree, FreeSlots, Files, Subdirs, Edited,
         HandleOk, HandleViewOf, Elsewhere, OthersKept, Owns, ClusterOf, Frame, Reserved;
    ZeroNotElsewhere(s);
    FrameSame(s);
    var e := NewSlot(s.kind, name, ATTR_ARC, 0);
    FoundFile(s, hs, name, -1);
    UniqueOf(s.slots);
    FindIsLookup(s.slots, name);
    AddEntry(s, name, ATTR_ARC, 0);
    HomeIsOk(s);
    EditedKeeps(s, i, e);
    EditedOthers(s, s, i, e, 0);
    var u := Edited(s, i, e);
    SlotWasFree(s.slots);
    NotInUse(s, hs, i);
    OtherHandles(s, u, hs, i, e);
    SameHandleViews(s, u, hs);
    RoomIffFree(s.slots);
    var a, b := ViewOf(s, hs), ViewOf(u, hs);
    assert b.files == a.files[name := FM.File([], 0, false)];
    assert b.subdirs == a.subdirs;
    assert b.room == a.room - 1;
    assert b.space == a.space;
    assert HandlesOk(u, hs);
  }

  lemma FrameSame(s: Store)
    ensures Frame(s, s, 0)
  {
  }

  lemma SlotWasFree(ss: seq<Slot>)
    requires FirstFree(ss, 0) >= 0
    ensures !IsFile(ss[FirstFree(ss, 0)]) && !IsEntry(ss[FirstFree(ss, 0)])
  {
  }

  /** The store once a file's chain has been freed. */
  ghost function Released(s: Store, head: nat): Store {
    if head == 0 then s else s.(fat := Freed(s.fat, s.Eof(), head), owners := s.owners - {head})
  }

  lemma UnlinkEnds(s: Store, hs: seq<Handle>, name: Name, i: nat)
    requires Inv(s) && HandlesOk(s, hs) && FindFrom(s.slots, name, 0) == i && IsFile(s.slots[i])
    requires Legal(false, ViewOf(s, hs), Unlink(name))
    ensures HomeOk(Released(s, ClusterOf(s.kind, s.slots[i])))
    ensures Agrees(s, hs, Edited(Released(s, ClusterOf(s.kind, s.slots[i])), i, s.slots[i][0 := DELETED]), hs,
        Unlink(name), Code(0))
  {
    hide TableOk, WellFormed, Apart, IsFile, FindFrom, FreeSlots, Files, Subdirs, Edited, HandleOk, HandleViewOf,
         ClusterOf, SizeOf, FileAt, FileOk, Freed, NameOf, Frame, IsFolder, Owns, Extent, Elsewhere, OthersKept;
    var x, e := s.slots[i], s.slots[i][0 := DELETED];
    var head := ClusterOf(s.kind, x);
    FoundFile(s, hs, name, i);
    HomeIsOk(s);
    FileIsEntry(x);
    assert SlotOk(s, x);
    OwnNotElsewhere(s, i);
    DropEntry(s, i);
    var t := s.(slots := s.slots[i := e]);
    if head != 0 {
      OtherHeads(s, i, head);
      SlotsDoNotMatter(s, t, head, SizeOf(x));
      StepDrop(t, head, SizeOf(x));
    } else {
      EmptyFile(s, x);
      FrameSame(t);
    }
    ReleasedFrame(s, t, head);
    var r := Released(s, head);
    EditedOthers(s, r, i, e, head);
    EditedKeeps(r, i, e);
    var u := Edited(r, i, e);
    NotOpen(s, hs, name, i);
    OtherHandles(s, u, hs, i, e);
    SameHandleViews(s, u, hs);
    SpaceOfFat(s, t);
    var a, b := ViewOf(s, hs), ViewOf(u, hs);
    assert b.files == a.files - {name};
    assert b.subdirs == a.subdirs;
    assert b.room == a.room + 1;
    assert HandlesOk(u, hs);
    assert u.slots == t.slots;
    assert b.space == FM.Space(a.space.free + FileOf(s, x).clusters, a.space.spare + if FileOf(s, x).stuck then 1
        else 0);
  }

  lemma ReleasedFrame(s: Store, t: Store, head: nat)
    requires t == s.(slots := t.slots) && Frame(t, Released(t, head), head)
    ensures Frame(s, Released(s, head), head) && Released(s, head).slots == s.slots
  {
  }

  lemma NotOpen(s: Store, hs: seq<Handle>, name: Name, i: nat)
    requires Inv(s) && HandlesOk(s, hs) && i < |s.slots| && NameOf(s.slots[i]) == name
    requires Legal(false, ViewOf(s, hs), Unlink(name))
    ensures forall k | 0 <= k < |hs| :: hs[k].inUse ==> hs[k].slot != i
  {
    hide Inv, Files, Subdirs, FreeSlots, IsFile, ClusterOf, SizeOf, NameOf;
    var a := ViewOf(s, hs);
    forall k | 0 <= k < |hs| && hs[k].inUse
      ensures hs[k].slot != i
    {
      assert HandleOk(s, hs[k]);
      assert a.handles[k] == Opened(NameOf(s.slots[hs[k].slot]), hs[k].pos);
    }
  }

  lemma RoomOfView(s: Store, hs: seq<Handle>)
    requires Inv(s)
    ensures FirstFree(s.slots, 0) == -1 <==> ViewOf(s, hs).room == 0
  {
    RoomIffFree(s.slots);
  }

  lemma SpaceOfView(s: Store, hs: seq<Handle>)
    requires Inv(s)
    ensures ViewOf(s, hs).space == s.Space()
  {
  }

  /** A file's chain can be freed from its head. */
  lemma FileHead(s: Store, i: nat)
    requires Inv(s) && i < |s.slots| && IsFile(s.slots[i])
    ensures InRange(s.fat, s.Eof()) && ClusterOf(s.kind, s.slots[i]) < |s.fat| && HomeOk(s)
    ensures ClusterOf(s.kind, s.slots[i]) == 0 || ClusterOf(s.kind, s.slots[i]) >= 2
  {
    hide IsFile, IsFolder, Owns, Extent, ClusterOf, SizeOf, FatCodec.Eof, InRange;
    FileIsEntry(s.slots[i]);
    assert SlotOk(s, s.slots[i]);
    HomeIsOk(s);
    var head := ClusterOf(s.kind, s.slots[i]);
    if head != 0 {
      HeadBelowLim(s, head);
      ChainDistinct(s, head);
      LastInChain(s, head);
      assert s.owners[head][0] in s.owners[head];
    }
  }

  /** Every handle on the renamed entry follows it; no other handle had its name. */
  lemma RenamedHandles(s: Store, u: Store, hs: seq<Handle>, i: nat, to: Name)
    requires Inv(s) && HandlesOk(s, hs) && i < |s.slots| && IsEntry(s.slots[i]) && Ordinary(to)
    requires u.slots == s.slots[i := Renamed(s.slots[i], to)] && u.kind == s.kind
    ensures HandlesOk(u, hs)
    ensures forall k | 0 <= k < |hs| ::
      HandleViewOf(u, hs[k]) == RenameHandle(HandleViewOf(s, hs[k]), NameOf(s.slots[i]), to)
  {
    hide TableOk, SlotOk, Apart, ZeroTail, ClusterOf, SizeOf, Renamed;
    RenamedFields(s.slots[i], to, s.kind);
    hide IsFile, IsEntry, NameOf;
    UniqueOf(s.slots);
    forall k | 0 <= k < |hs|
      ensures HandleOk(u, hs[k])
      ensures HandleViewOf(u, hs[k]) == RenameHandle(HandleViewOf(s, hs[k]), NameOf(s.slots[i]), to)
    {
      assert HandleOk(s, hs[k]);
      if hs[k].inUse {
        FileIsEntry(s.slots[hs[k].slot]);
      }
    }
  }

  lemma RenameEnds(s: Store, hs: seq<Handle>, from: Name, to: Name, i: nat)
    requires Inv(s) && HandlesOk(s, hs) && Ordinary(to) && !IsDots(from) && !IsDots(to)
    requires FindFrom(s.slots, from, 0) == i && FindFrom(s.slots, to, 0) == -1
    ensures Agrees(s, hs, Edited(s, i, Renamed(s.slots[i], to)), hs, Rename(from, to), Code(0))
  {
    hide TableOk, WellFormed, SlotOk, Apart, IsFile, FindFrom, FreeSlots, Files, Subdirs, Edited, HandleOk,
         HandleViewOf, ClusterOf, SizeOf, FileAt, FolderAt, FileOk, NameOf, Renamed, IsFolder, Owns, Extent,
         Elsewhere, OthersKept, Frame, IsDots;
    ZeroNotElsewhere(s);
    FrameSame(s);
    FoundFile(s, hs, from, i);
    FoundFile(s, hs, to, -1);
    UniqueOf(s.slots);
    FindIsLookup(s.slots, to);
    RenameEntry(s, i, to);
    HomeIsOk(s);
    var e := Renamed(s.slots[i], to);
    RenamedFields(s.slots[i], to, s.kind);
    if Owns(s.slots[i]) { OwnNotElsewhere(s, i); }
    EditedOthers(s, s, i, e, 0);
    EditedKeeps(s, i, e);
    var t, u := s.(slots := s.slots[i := e]), Edited(s, i, e);
    RenamedHandles(s, u, hs, i, to);
    SpaceOfFat(s, t);
    var a, b := ViewOf(s, hs), ViewOf(u, hs);
    var gs := seq(|a.handles|, k requires 0 <= k < |a.handles| => RenameHandle(a.handles[k], from, to));
    assert b.handles == gs;
    if from !in a.files {
      NoHandleNamed(s, hs, from, to);
    }
    assert b.room == a.room && b.space == a.space;
  }

  lemma NoHandleNamed(s: Store, hs: seq<Handle>, from: Name, to: Name)
    requires Inv(s) && HandlesOk(s, hs) && from !in Files(s)
    ensures var a := ViewOf(s, hs);
            seq(|a.handles|, k requires 0 <= k < |a.handles| => RenameHandle(a.handles[k], from, to)) == a.handles
  {
    hide Inv, Subdirs, FreeSlots, IsFile, ClusterOf, SizeOf, NameOf, Files;
    var a := ViewOf(s, hs);
    forall k | 0 <= k < |hs|
      ensures RenameHandle(a.handles[k], from, to) == a.handles[k]
    {
      assert HandleOk(s, hs[k]);
      if hs[k].inUse {
        OpenHandle(s, hs, k);
      }
    }
  }

  // ---- listing and subdirectories ----

  lemma TailOf(s: Store)
    requires Inv(s)
    ensures ZeroTail(s.slots)
  {
  }

  lemma {:induction false} NothingAfterZero(ss: seq<Slot>, i: nat)
    requires i < |ss| && ZeroTail(ss) && ss[i][0] == 0
    ensures Listing(ss, i) == [] && Listing(ss, i + 1) == []
  {
  }

  /** The first cluster of a new directory: "." and "..", then slots never used. */
  function DotBlock(kind: Kind, size: nat, c: nat, parent: nat): (b: seq<byte>)
    ensures |b| == size
  {
    var blank := seq(9, _ => 0x20 as byte);
    var dots := NewSlot(kind, [0x2E, 0x20] + blank, ATTR_DIR, c) + NewSlot(kind, [0x2E, 0x2E] + blank, ATTR_DIR,
        parent);
    if size < |dots| then seq(size, _ => 0) else dots + seq(size - |dots|, _ => 0)
  }

  /** Directory `name` is as mkdir leaves it: a cluster of its own, holding its two markers. */
  ghost predicate NewDir(s: Store, name: Name, parent: nat) {
    && UniqueNames(s.slots) && name in DirMap(s.slots) && IsFolder(DirMap(s.slots)[name])
    && NewAt(s, ClusterOf(s.kind, DirMap(s.slots)[name]), parent)
  }

  ghost predicate NewAt(s: Store, c: nat, parent: nat) {
    && c in s.owners && s.owners[c] == [c] && 0 != c < |s.data| && c != s.home
    && s.data[c] == DotBlock(s.kind, s.cs, c, parent)
  }

  lemma LegalMkdir(tight: bool, s: Store, hs: seq<Handle>, name: Name)
    requires Inv(s) && Legal(tight, ViewOf(s, hs), Mkdir(name)) && (tight ==> |s.fat| <= s.Eof())
    ensures CanAlloc(s) && Ordinary(name)
  {
  }

  /** The cluster of the new directory, taken from the free ones. */
  lemma MkdirTakes(s: Store, s1: Store, hs: seq<Handle>, c: nat)
    requires Inv(s) && HandlesOk(s, hs) && 2 <= c < s.Lim() && s.fat[c] == 0 && (c < |s.data| <==> s.Space().free > 0)
    requires s1 == s.(fat := s.fat[c := s.Eof()], owners := s.owners[c := [c]])
    ensures Inv(s1) && c !in s.owners && c != s1.home && SameFiles(s, s1) && Frame(s, s1, c)
    ensures s.Space() == if c < |s.data| then s1.Space().(free := s1.Space().free + 1)
        else s1.Space().(spare := s1.Space().spare + 1)
    ensures forall e | e in s.slots && Owns(e) :: ClusterOf(s.kind, e) != c
  {
    hide FatCodec.Eof, WellFormed, Apart, Partition, InRange, IsFile, IsFolder, Owns, Extent, ClusterOf, SizeOf,
         Content, FileAt, FileOk, Frame, FreeSet, SameItem, NoneUsed;
    StepNew(s, c);
    EofPositive(s.kind);
    AllocSpace(s, c, s.Eof());
    SpaceOfFat(s.(fat := s.fat[c := s.Eof()]), s1);
    HomeUsed(s, c);
    forall e | e in s.slots
      ensures SameItem(s, s1, e)
      ensures Owns(e) ==> ClusterOf(s.kind, e) != c
    {
      assert SlotOk(s, e);
      if Owns(e) {
        HeadNotNew(s, ClusterOf(s.kind, e), Extent(e), c);
      }
      FramedItem(s, s1, c, e);
    }
  }

  lemma HeadNotNew(s: Store, head: nat, size: nat, c: nat)
    requires FileOk(s, head, size) && c !in s.owners && c != 0
    ensures head != c
  {
  }

  ghost predicate SameFiles(s: Store, t: Store) {
    t.slots == s.slots && t.kind == s.kind && t.cs == s.cs && t.home == s.home && |t.data| == |s.data|
    && forall e | e in s.slots :: SameItem(s, t, e)
  }

  lemma SameFilesTrans(s: Store, t: Store, u: Store)
    requires SameFiles(s, t) && SameFiles(t, u)
    ensures SameFiles(s, u)
  {
    hide IsFile, FileOf, FolderOf;
    forall e | e in s.slots
      ensures SameItem(s, u, e)
    {
      assert SameItem(s, t, e) && SameItem(t, u, e);
    }
  }

  /** Writing the fresh cluster changes no file. */
  lemma MkdirWrites(s: Store, s1: Store, s2: Store, c: nat)
    requires Inv(s) && Inv(s1) && SameFiles(s, s1) && Frame(s, s1, c) && c in s1.owners && s1.owners[c] == [c]
    requires c != s1.home
    requires |s2.data| == |s1.data| && s2 == s1.(data := s2.data) && c >= 2
    requires forall e | e in s.slots && Owns(e) :: ClusterOf(s.kind, e) != c
    requires if c < |s1.data| then s2.data == s1.data[c := s2.data[c]] && |s2.data[c]| == s1.cs else s2.data == s1.data
    ensures Inv(s2) && SameFiles(s, s2) && s2.Space() == s1.Space() && Frame(s, s2, c)
  {
    hide FatCodec.Eof, WellFormed, Apart, Partition, InRange, IsFile, IsFolder, Owns, Extent, ClusterOf, SizeOf,
         Content, FileAt, FileOk, Frame, FreeSet, SameItem, NoneUsed;
    if c < |s1.data| {
      assert c in s1.owners[c];
      DataInv(s1, s2, c, c);
      FrameTrans(s, s1, s2, c);
      forall e | e in s1.slots
        ensures SameItem(s1, s2, e)
      {
        assert SlotOk(s1, e);
        FramedItem(s1, s2, c, e);
      }
      SameFilesTrans(s, s1, s2);
    } else {
      assert s2 == s1;
    }
  }

  lemma ViewSameFiles(s: Store, t: Store, hs: seq<Handle>)
    requires Inv(s) && Inv(t) && SameFiles(s, t) && HandlesOk(s, hs)
    ensures ViewOf(t, hs) == ViewOf(s, hs).(space := t.Space()) && HandlesOk(t, hs)
  {
    hide TableOk, WellFormed, SlotOk, Apart, IsFile, ClusterOf, SizeOf, NameOf, FileOf, Files, Subdirs, FreeSlots,
         FreeSet, SameItem;
    UniqueOf(s.slots);
    FilesSame(s, t);
    assert forall k | 0 <= k < |hs| && HandleOk(s, hs[k]) ::
      HandleOk(t, hs[k]) && HandleViewOf(t, hs[k]) == HandleViewOf(s, hs[k]);
  }

  /** The cluster is taken but no entry is made. */
  lemma MkdirLeaks(s: Store, t: Store, hs: seq<Handle>, name: Name, c: nat)
    requires Inv(s) && Inv(t) && HandlesOk(s, hs) && SameFiles(s, t) && Frame(s, t, c) && c !in s.owners
    requires FindFrom(s.slots, name, 0) == -1 && !Reserved(name) && c != s.home
    requires if s.Space().free == 0 then s.Space().spare > 0 && t.Space() == s.Space().(spare := s.Space().spare - 1)
             else FirstFree(s.slots, 0) == -1 && t.Space() == s.Space().(free := s.Space().free - 1)
    ensures Agrees(s, hs, t, hs, Mkdir(name), Code(-1))
  {
    SameSize(s, t);
    hide Inv, IsFile, FindFrom, FirstFree, Files, Subdirs, FreeSlots, FreeSet, HandlesOk, SameFiles, Frame,
         OthersKept, Reserved;
    FrameOthers(s, t, c);
    FoundFile(s, hs, name, -1);
    RoomOfView(s, hs);
    ViewSameFiles(s, t, hs);
    BlocksPositive(s);
  }

  lemma MkdirRefused(s: Store, hs: seq<Handle>, name: Name)
    requires Inv(s) && HandlesOk(s, hs) && s.Space() == FM.Space(0, 0)
    ensures Agrees(s, hs, s, hs, Mkdir(name), Code(-1))
  {
    hide Inv, Files, Subdirs, FreeSlots, FreeSet, HandlesOk, OthersKept;
    BlocksPositive(s);
    OthersSame(s);
  }

  lemma SameSize(s: Store, t: Store)
    requires SameFiles(s, t)
    ensures t.cs == s.cs && t.kind == s.kind && t.slots == s.slots && t.home == s.home
  {
  }

  /** The new directory holds nothing but its two markers. */
  lemma DotBlockEmpty(kind: Kind, size: nat, c: nat, parent: nat)
    ensures NoneUsed(Slots(DotBlock(kind, size, c, parent)), 2)
  {
    hide NewSlot;
    var b := DotBlock(kind, size, c, parent);
    if |Slots(b)| > 2 {
      SlotCount(b, 2);
      assert Slots(b)[2][0] == b[2 * SLOT];
    }
  }

  /** It owns one cluster. */
  lemma NewFolder(s: Store, c: nat, parent: nat)
    requires c in s.owners && s.owners[c] == [c] && 0 != c < |s.data| && s.data[c] == DotBlock(s.kind, s.cs, c, parent)
    ensures FolderAt(s, c) == FM.Folder(1, false, true) && FileOk(s, c, 0)
  {
    hide DotBlock, Slots, NoneUsed;
    DotBlockEmpty(s.kind, s.cs, c, parent);
  }

  lemma MkdirEnds(s: Store, t: Store, hs: seq<Handle>, name: Name, c: nat, i: nat, parent: nat)
    requires Inv(s) && Inv(t) && HandlesOk(s, hs) && SameFiles(s, t) && Frame(s, t, c) && c !in s.owners
    requires Ordinary(name) && c < t.Lim()
    requires FindFrom(s.slots, name, 0) == -1 && !Reserved(name) && FirstFree(s.slots, 0) == i
    requires s.Space().free > 0 && t.Space() == s.Space().(free := s.Space().free - 1)
    requires c in t.owners && t.owners[c] == [c] && 0 != c < |t.data|
    requires t.data[c] == DotBlock(t.kind, t.cs, c, parent) && c != t.home
    requires forall e | e in s.slots && Owns(e) :: ClusterOf(s.kind, e) != c
    ensures Agrees(s, hs, Edited(t, i, NewSlot(t.kind, name, ATTR_DIR, c)), hs, Mkdir(name), Code(0))
    ensures NewDir(Edited(t, i, NewSlot(t.kind, name, ATTR_DIR, c)), name, parent)
  {
    hide TableOk, WellFormed, SlotOk, Apart, NewSlot, IsFile, IsFolder, Owns, Extent, FindFrom, FirstFree, FreeSlots,
         Files, Subdirs, Edited, HandleOk, HandleViewOf, FreeSet, DotBlock, Elsewhere, OthersKept, Frame, SameItem,
         FileOk, FolderAt, Reserved, ClusterOf, NewDir;
    var e := NewSlot(t.kind, name, ATTR_DIR, c);
    NotInOwners(s, c);
    ViewSameFiles(s, t, hs);
    FoundFile(s, hs, name, -1);
    UniqueOf(s.slots);
    FindIsLookup(s.slots, name);
    FitsEntry(t, c, 0);
    NewFolder(t, c, parent);
    AddEntry(t, name, ATTR_DIR, c);
    HomeIsOk(t);
    EditedKeeps(t, i, e);
    EditedOthers(s, t, i, e, c);
    var u := Edited(t, i, e);
    UniqueOf(t.slots[i := e]);
    NewDirIs(t, i, name, c, parent);
    SlotWasFree(t.slots);
    NotInUse(t, hs, i);
    OtherHandles(t, u, hs, i, e);
    SameHandleViews(t, u, hs);
    RoomIffFree(s.slots);
    SpaceOfFat(t, t.(slots := t.slots[i := e]));
    var a, b := ViewOf(s, hs), ViewOf(u, hs);
    assert b.files == a.files;
    assert b.subdirs == a.subdirs[name := FM.Folder(1, false, true)];
    assert b.room == a.room - 1;
    assert b.space == t.Space();
    assert HandlesOk(u, hs);
  }

  lemma NewDirIs(t: Store, i: nat, name: Name, c: nat, parent: nat)
    requires i < |t.slots| && Ordinary(name) && !Reserved(name) && Fits(t.kind, c, 0) && NewAt(t, c, parent)
    requires var e := NewSlot(t.kind, name, ATTR_DIR, c);
      && UniqueNames(t.slots[i := e]) && name in DirMap(t.slots[i := e]) && DirMap(t.slots[i := e])[name] == e
    ensures NewDir(Edited(t, i, NewSlot(t.kind, name, ATTR_DIR, c)), name, parent)
  {
    hide NewSlot, IsFolder, ClusterOf, DotBlock, DirMap, UniqueNames;
    NewSlotFields(t.kind, name, ATTR_DIR, c);
  }

  lemma NotInOwners(s: Store, c: nat)
    requires c !in s.owners
    ensures !Elsewhere(s, c)
  {
  }

  // ---- subdirectories removed ----

  lemma FolderHead(s: Store, i: nat)
    requires Inv(s) && i < |s.slots| && IsFolder(s.slots[i])
    ensures var c := ClusterOf(s.kind, s.slots[i]);
      && InRange(s.fat, s.Eof()) && 2 <= c < |s.fat| && c < |s.data| && HomeOk(s) && FileOk(s, c, 0) && c != s.home
      && FolderOf(s, s.slots[i]) == FolderAt(s, c)
  {
    hide IsFolder, IsFile, ClusterOf, FatCodec.Eof, InRange, Apart, WellFormed, Slots, NoneUsed;
    var c := ClusterOf(s.kind, s.slots[i]);
    FolderIsNoFile(s.slots[i]);
    assert SlotOk(s, s.slots[i]);
    HomeIsOk(s);
    HeadBelowLim(s, c);
    ChainDistinct(s, c);
    LastInChain(s, c);
    assert s.owners[c][0] in s.owners[c];
  }

  lemma FolderIsNoFile(e: Slot)
    ensures IsFolder(e) ==> !IsFile(e) && IsEntry(e) && Owns(e) && Extent(e) == 0
    ensures IsFolder(e) ==> IsSubdir(e) && !IsDots(NameOf(e))
    ensures IsEntry(e) && IsSubdir(e) && !IsDots(NameOf(e)) ==> IsFolder(e)
    ensures IsEntry(e) && !IsSubdir(e) ==> IsFile(e)
  {
  }

  lemma RmdirEnds(s: Store, hs: seq<Handle>, name: Name, i: nat)
    requires Inv(s) && HandlesOk(s, hs) && FindFrom(s.slots, name, 0) == i && IsFolder(s.slots[i])
    requires NoneUsed(Slots(s.data[ClusterOf(s.kind, s.slots[i])]), 2)
    ensures HomeOk(Released(s, ClusterOf(s.kind, s.slots[i])))
    ensures Agrees(s, hs, Edited(Released(s, ClusterOf(s.kind, s.slots[i])), i, s.slots[i][0 := DELETED]), hs,
        Rmdir(name), Code(0))
  {
    hide TableOk, WellFormed, Apart, IsFile, IsFolder, Owns, Extent, FindFrom, FreeSlots, Files, Subdirs, Edited,
         HandleOk, HandleViewOf, ClusterOf, SizeOf, FileAt, FileOk, Freed, NameOf, Frame, SlotOk, Elsewhere,
         OthersKept, Slots, NoneUsed, FolderOf;
    var x, e := s.slots[i], s.slots[i][0 := DELETED];
    var c := ClusterOf(s.kind, x);
    FoundFile(s, hs, name, i);
    FolderIsNoFile(x);
    BlocksPositive(s);
    FolderHead(s, i);
    OwnNotElsewhere(s, i);
    DropEntry(s, i);
    var t := s.(slots := s.slots[i := e]);
    OtherHeads(s, i, c);
    SlotsDoNotMatter(s, t, c, 0);
    StepDrop(t, c, 0);
    ReleasedFrame(s, t, c);
    var r := Released(s, c);
    EditedOthers(s, r, i, e, c);
    EditedKeeps(r, i, e);
    var u := Edited(r, i, e);
    NotInUse(s, hs, i);
    OtherHandles(s, u, hs, i, e);
    SameHandleViews(s, u, hs);
    SpaceOfFat(s, t);
    var a, b := ViewOf(s, hs), ViewOf(u, hs);
    assert b.files == a.files;
    assert b.subdirs == a.subdirs - {name};
    assert b.room == a.room + 1;
    assert HandlesOk(u, hs);
    assert a.subdirs[name] == FolderAt(s, c) && a.subdirs[name].empty;
    var f := FileAt(s, c, 0);
    assert b.space == FM.Space(a.space.free + f.clusters, a.space.spare + if f.stuck then 1 else 0);
  }

  /** Not a subdirectory, or one in use: nothing happens. */
  lemma RmdirRefused(s: Store, hs: seq<Handle>, name: Name, i: int)
    requires Inv(s) && HandlesOk(s, hs) && FindFrom(s.slots, name, 0) == i
    requires i >= 0 && IsFolder(s.slots[i]) ==> !NoneUsed(Slots(s.data[ClusterOf(s.kind, s.slots[i])]), 2)
    ensures Agrees(s, hs, s, hs, Rmdir(name), Code(-1))
  {
    hide Inv, Files, Subdirs, FreeSlots, FreeSet, HandlesOk, OthersKept, FindFrom, IsEntry, IsFile, IsSubdir,
         IsFolder, NameOf, Slots, NoneUsed, ClusterOf, FileAt, IsDots;
    BlocksPositive(s);
    OthersSame(s);
    FoundFile(s, hs, name, i);
    if i >= 0 && IsFolder(s.slots[i]) {
      FolderIsNoFile(s.slots[i]);
      FolderHead(s, i);
      assert !ViewOf(s, hs).subdirs[name].empty;
    }
    assert Step(s.cs, ViewOf(s, hs), Rmdir(name)) == (ViewOf(s, hs), Code(-1));
  }
}
