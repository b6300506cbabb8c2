/** Into a directory just made, and back: runs that change directory. */
module Excursions {
  import opened Bytes
  import opened FatCodec
  import opened FatVolumes
  import opened Chains
  import opened Directory
  import opened Stores
  import opened DirSteps
  import opened Sessions
  import opened FsModel
  import opened FileSystems
  import opened Runs
  import FM = FileModel

  const DOT: Name := [0x2E, 0x20, 0x20, 0x20, 0x20, 0x20, 0x20, 0x20, 0x20, 0x20, 0x20]
  const DOTDOT: Name := [0x2E, 0x2E, 0x20, 0x20, 0x20, 0x20, 0x20, 0x20, 0x20, 0x20, 0x20]

  // ---- the slots of a new directory ----

  /** What mkdir writes: the directory itself, its parent, and slots never used. */
  lemma DotSlots(kind: Kind, size: nat, c: nat, parent: nat)
    requires size >= 2 * SLOT && size % SLOT == 0
    ensures var ss := Slots(DotBlock(kind, size, c, parent));
      && |ss| == size / SLOT >= 2 && ss[0] == NewSlot(kind, DOT, ATTR_DIR, c)
      && ss[1] == NewSlot(kind, DOTDOT, ATTR_DIR, parent) && forall i | 2 <= i < |ss| :: ss[i][0] == 0
  {
    hide NewSlot;
    var b := DotBlock(kind, size, c, parent);
    var x: seq<byte>, y: seq<byte> := NewSlot(kind, DOT, ATTR_DIR, c), NewSlot(kind, DOTDOT, ATTR_DIR, parent);
    var rest := seq(size - 2 * SLOT, _ => 0 as byte);
    var blank := seq(9, _ => 0x20 as byte);
    assert [0x2E, 0x20] + blank == DOT && [0x2E, 0x2E] + blank == DOTDOT;
    assert b == x + y + rest;
    assert b[0..SLOT] == x && b[SLOT..2 * SLOT] == y;
    forall i | 2 <= i < |Slots(b)|
      ensures Slots(b)[i][0] == 0
    {
      SlotCount(b, i);
      assert Slots(b)[i][0] == b[i * SLOT];
    }
  }

  /** On the bytes: the markers are subdirectories, "." naming the directory itself and ".." its parent. */
  lemma DotBytes(kind: Kind, size: nat, c: u32, parent: u32)
    requires size >= 2 * SLOT && size % SLOT == 0 && (!kind.Fat32? ==> c < 0x1_0000 && parent < 0x1_0000)
    ensures var ss := Slots(DotBlock(kind, size, c, parent));
      && |ss| >= 2 && ss[0][..11] == DOT && ss[1][..11] == DOTDOT && ss[0][11] == ss[1][11] == 0x10
      && ClusterOf(kind, ss[0]) == c && ClusterOf(kind, ss[1]) == parent && SizeOf(ss[0]) == SizeOf(ss[1]) == 0
  {
    hide Slots, DotBlock, WithFile, ClusterOf, SizeOf;
    DotSlots(kind, size, c, parent);
    WithFileFields(kind, DOT + [ATTR_DIR] + seq(20, _ => 0), c, 0);
    WithFileFields(kind, DOTDOT + [ATTR_DIR] + seq(20, _ => 0), parent, 0);
  }

  /** Slots like these, whatever clusters the markers name. */
  ghost predicate DotsOnly(ss: seq<Slot>) {
    && |ss| >= 2 && NameOf(ss[0]) == DOT && NameOf(ss[1]) == DOTDOT
    && (forall i | 0 <= i < 2 :: IsEntry(ss[i]) && !IsFile(ss[i]) && !IsFolder(ss[i]))
    && forall i | 2 <= i < |ss| :: ss[i][0] == 0
  }

  lemma DotFields(kind: Kind, n: Name, cluster: nat)
    requires n == DOT || n == DOTDOT
    ensures var e := NewSlot(kind, n, ATTR_DIR, cluster); NameOf(e) == n && IsEntry(e) && !IsFile(e) && !IsFolder(e)
  {
    hide WithFile;
    var z: Slot := n + [ATTR_DIR] + seq(20, _ => 0);
    WithFileBytes(kind, z, cluster, 0);
    var e := NewSlot(kind, n, ATTR_DIR, cluster);
    assert z[..11] == n && e[0] == e[..11][0] && z[11] == ATTR_DIR;
    assert IsDots(n);
  }

  lemma NewIsDotsOnly(kind: Kind, size: nat, c: nat, parent: nat)
    requires size >= 2 * SLOT && size % SLOT == 0
    ensures var ss := Slots(DotBlock(kind, size, c, parent)); DotsOnly(ss) && |ss| == size / SLOT
  {
    hide NewSlot, IsEntry, IsFile, IsFolder, NameOf, Slots, DotBlock;
    DotSlots(kind, size, c, parent);
    DotFields(kind, DOT, c);
    DotFields(kind, DOTDOT, parent);
  }

  lemma Unused(e: Slot)
    ensures e[0] == 0 ==> !IsEntry(e) && IsFree(e) && !Owns(e)
    ensures IsEntry(e) ==> e[0] != 0 && !IsFree(e)
    ensures Owns(e) <==> IsFile(e) || IsFolder(e)
  {
  }

  lemma DotsWellFormed(ss: seq<Slot>)
    requires DotsOnly(ss)
    ensures WellFormed(ss) && (forall e | e in ss :: !Owns(e))
    ensures DirMap(ss) == map[DOT := ss[0], DOTDOT := ss[1]] && |FreeSlots(ss)| == |ss| - 2
  {
    hide IsEntry, IsFile, IsFolder, Owns, IsFree, NameOf;
    assert DOT[1] != DOTDOT[1];
    forall i | 0 <= i < |ss|
      ensures !Owns(ss[i]) && (IsEntry(ss[i]) <==> i < 2) && (IsFree(ss[i]) <==> i >= 2) && (ss[i][0] == 0 <==> i >= 2)
    {
      Unused(ss[i]);
    }
    var m := map[DOT := ss[0], DOTDOT := ss[1]];
    assert UniqueNames(ss);
    forall n | n in m
      ensures exists i :: EntryAt(ss, i, n)
    {
      assert EntryAt(ss, if n == DOT then 0 else 1, n);
    }
    MapIs(ss, m);
    assert FreeSlots(ss) == Range(2, |ss|);
  }

  // ---- entering ----

  /** The store seen from directory `c`, with `root` the fixed root. */
  ghost function In(s: Store, c: nat, root: seq<byte>): Store {
    s.(home := c, slots := if c < |s.data| then Slots(s.data[c]) else [], base := root)
  }

  /** A directory of one cluster that holds its markers only. */
  ghost function EmptyDir(cs: nat, space: FM.Space): View {
    View(map[], map[DOT := FM.Marker, DOTDOT := FM.Marker], FM.Minus(cs / SLOT, 2), space,
         seq(MAX_HANDLES, _ => Closed))
  }

  /** A directory just made is in order: the invariant holds of it, and it shows nothing but its markers. */
  lemma Entered(s: Store, c: nat, parent: nat, root: seq<byte>, hs: seq<Handle>)
    requires Inv(s) && NewAt(s, c, parent) && s.cs >= 2 * SLOT && s.cs % SLOT == 0
    requires |hs| == MAX_HANDLES && forall i | 0 <= i < |hs| :: !hs[i].inUse
    ensures var t := In(s, c, root);
      && Inv(t) && HandlesOk(t, hs) && ViewOf(t, hs) == EmptyDir(s.cs, s.Space()) && DotsOnly(t.slots)
  {
    hide DotBlock, Slots, DotsOnly, Owns, ClusterOf, IsFile, IsFolder, DirMap, WellFormed, Partition, InRange,
         FatCodec.Eof, FreeSlots, FreeSet;
    var t := In(s, c, root);
    NewIsDotsOnly(s.kind, s.cs, c, parent);
    DotsWellFormed(t.slots);
    assert forall i | 0 <= i < |t.slots| :: t.slots[i] in t.slots;
    SpaceOfFat(s, t);
    OnlyMarkers(t);
    assert ViewOf(t, hs).handles == seq(MAX_HANDLES, _ => Closed);
  }

  lemma OnlyMarkers(t: Store)
    requires DotsOnly(t.slots) && WellFormed(t.slots) && DirMap(t.slots) == map[DOT := t.slots[0], DOTDOT := t.slots[1]]
    ensures UniqueNames(t.slots) && Files(t) == map[] && Subdirs(t) == map[DOT := FM.Marker, DOTDOT := FM.Marker]
  {
    hide IsFile, IsFolder, IsEntry, DirMap, NameOf;
  }

  // ---- and back ----

  /** The same store seen from the directory of `s` again. */
  ghost function Back(s: Store, u: Store): Store
    requires s.home < |u.data|
  {
    u.(home := s.home, slots := if s.home == 0 then Slots(u.base) else Slots(u.data[s.home]),
       base := if s.home == 0 then [] else u.base)
  }

  /** The directory of `s` and the fixed root `root`, as the device has them. */
  ghost predicate OnDisk(s: Store, root: seq<byte>) {
    && s.home < |s.data| && s.slots == (if s.home == 0 then Slots(root) else Slots(s.data[s.home]))
    && s.base == if s.home == 0 then [] else root
  }

  /** Whatever has been done in a new directory, its parent finds all its own chains again. */
  lemma BackFrame(s: Store, u: Store, c: nat, parent: nat, root: seq<byte>)
    requires Inv(s) && NewAt(s, c, parent) && OnDisk(s, root) && s.cs >= 2 * SLOT && s.cs % SLOT == 0
    requires Inv(u) && OthersKept(In(s, c, root), u)
    ensures s.home < |u.data| && Frame(s, Back(s, u), c) && Back(s, u).slots == s.slots
    ensures u.home == c && c in u.owners && u.owners[c] == [c] && u.kind == s.kind && u.cs == s.cs
    ensures c < |u.data| == |s.data| && TableOk(Back(s, u)) && Back(s, u).Space() == u.Space()
  {
    hide DotBlock, Slots, Owns, ClusterOf, WellFormed, Partition, InRange, FatCodec.Eof, SlotOk, Apart;
    var t := In(s, c, root);
    NewIsDotsOnly(s.kind, s.cs, c, parent);
    DotsWellFormed(t.slots);
    forall h | h in s.owners && h != c
      ensures Elsewhere(t, h)
    {
    }
    if s.home != 0 {
      HomeInChain(s);
      assert u.data[s.home] == s.data[s.home];
    }
    SpaceOfFat(u, Back(s, u));
  }

  /** The folder whose cluster has been worked in: it still is one cluster, and empty if nothing is left in it. */
  lemma FolderBack(p: Store, c: nat)
    requires c in p.owners && p.owners[c] == [c] && 0 != c < |p.data|
    ensures FileOk(p, c, 0) && FolderAt(p, c) == FM.Folder(1, false, NoneUsed(Slots(p.data[c]), 2))
  {
    hide NoneUsed, Slots;
  }

  /** All entries but the one of `c` show what they showed. */
  lemma OtherItems(s: Store, p: Store, c: nat, i: nat)
    requires Inv(s) && Frame(s, p, c) && i < |s.slots| && c != 0
    requires forall j | 0 <= j < |s.slots| && j != i && Owns(s.slots[j]) :: ClusterOf(s.kind, s.slots[j]) != c
    ensures forall j | 0 <= j < |s.slots| && j != i :: SameItem(s, p, s.slots[j])
  {
    hide TableOk, Frame, Owns, ClusterOf, WellFormed, Apart, SlotOk, SameItem;
    forall j | 0 <= j < |s.slots| && j != i
      ensures SameItem(s, p, s.slots[j])
    {
      assert SlotOk(s, s.slots[j]);
      FramedItem(s, p, c, s.slots[j]);
    }
  }

  lemma OneFolder(s: Store, p: Store, i: nat)
    requires UniqueNames(s.slots) && p.slots == s.slots && i < |s.slots|
    requires IsEntry(s.slots[i]) && !IsFile(s.slots[i])
    requires forall j | 0 <= j < |s.slots| && j != i :: SameItem(s, p, s.slots[j])
    ensures var n := NameOf(s.slots[i]);
      n in Subdirs(s) && Files(p) == Files(s) && Subdirs(p) == Subdirs(s)[n := FolderOf(p, s.slots[i])]
  {
    hide IsFile, IsEntry, NameOf, DirMap, FileOf, FolderOf;
    MapHas(s.slots);
    assert EntryAt(s.slots, i, NameOf(s.slots[i]));
    forall n | n in DirMap(s.slots) && n != NameOf(s.slots[i])
      ensures SameItem(s, p, DirMap(s.slots)[n])
    {
      var k :| EntryAt(s.slots, k, n);
      assert k != i;
    }
  }

  /** The entry of the new directory keeps its cluster, so all entries are in order. */
  lemma BackSlots(s: Store, p: Store, i: nat, c: nat)
    requires Inv(s) && TableOk(p) && Frame(s, p, c) && p.slots == s.slots && i < |s.slots| && IsFolder(s.slots[i])
    requires p.kind == s.kind && c != 0 && c == ClusterOf(s.kind, s.slots[i]) && FileOk(p, c, 0)
    requires forall j | 0 <= j < |s.slots| && j != i && Owns(s.slots[j]) :: ClusterOf(s.kind, s.slots[j]) != c
    ensures Inv(p)
  {
    hide TableOk, Frame, WellFormed, SlotOk, FileOk, ClusterOf, IsFolder, IsFile, Extent, Apart, Owns;
    FolderIsNoFile(s.slots[i]);
    forall e | e in s.slots && Owns(e) && ClusterOf(s.kind, e) == c != 0
      ensures FileOk(p, c, Extent(e))
    {
      var j :| 0 <= j < |s.slots| && s.slots[j] == e;
      assert j == i;
    }
    KeepSlots(s, p, c);
  }

  /** The head of the chain of a directory. */
  ghost function HeadOf(s: Store, name: Name): nat {
    if UniqueNames(s.slots) && name in DirMap(s.slots) then ClusterOf(s.kind, DirMap(s.slots)[name]) else 0
  }

  /** The invariant holds of the parent again, its files read as before, and of the new directory it sees whether it is
      still empty. */
  lemma BackInv(s: Store, u: Store, name: Name, parent: nat, root: seq<byte>, hs: seq<Handle>)
    requires Inv(s) && NewDir(s, name, parent) && OnDisk(s, root) && s.cs >= 2 * SLOT && s.cs % SLOT == 0
    requires HandlesOk(s, hs)
    requires var c := HeadOf(s, name);
      c < |s.data| && Inv(u) && OthersKept(In(s, c, root), u) && c < |u.data| && u.slots == Slots(u.data[c])
    ensures s.home < |u.data|
    ensures var p, a := Back(s, u), ViewOf(s, hs);
      && Inv(p) && HandlesOk(p, hs) && OthersKept(s, p) && name in a.subdirs
      && ViewOf(p, hs) == a.(space := u.Space(),
                             subdirs := a.subdirs[name := FM.Folder(1, false, NoneUsed(u.slots, 2))])
  {
    hide DotBlock, Slots, Owns, ClusterOf, IsFile, IsFolder, DirMap, Extent, WellFormed, Partition, InRange,
         FatCodec.Eof, SlotOk, Apart, Files, Subdirs, FreeSlots, FreeSet, HandleOk, HandleViewOf, Frame, OthersKept,
         NoneUsed, FileAt, FileOk, NameOf, SameItem;
    var c := ClusterOf(s.kind, DirMap(s.slots)[name]);
    BackFrame(s, u, c, parent, root);
    var p := Back(s, u);
    MapHas(s.slots);
    var i :| EntryAt(s.slots, i, name);
    FolderIsNoFile(s.slots[i]);
    OtherHeads(s, i, c);
    FolderBack(p, c);
    BackSlots(s, p, i, c);
    OtherItems(s, p, c, i);
    OneFolder(s, p, i);
    OwnNotElsewhere(s, i);
    FrameOthers(s, p, c);
    HandlesBack(s, p, hs);
    SameHandleViews(s, p, hs);
  }

  lemma HandlesBack(s: Store, p: Store, hs: seq<Handle>)
    requires HandlesOk(s, hs) && p.slots == s.slots && p.kind == s.kind
    ensures HandlesOk(p, hs) && forall k | 0 <= k < |hs| :: HandleViewOf(p, hs[k]) == HandleViewOf(s, hs[k])
  {
    hide IsFile, ClusterOf, SizeOf, NameOf;
    assert forall k | 0 <= k < |hs| :: HandleOk(s, hs[k]) && HandleOk(p, hs[k]);
  }

  // ---- the calls ----

  ghost predicate NoneOpen(hs: seq<HandleView>) { forall i | 0 <= i < |hs| :: hs[i].Closed? }

  /** What the new directory of a successful mkdir shows at first. */
  ghost function Start(cs: nat, a: View, name: Name): View
    requires cs > 0
  {
    EmptyDir(cs, Step(cs, a, Mkdir(name)).0.space)
  }

  lemma BlockSlots(v: FatVolume)
    requires v.Valid()
    ensures v.ClusterBytes() >= 2 * SLOT && v.ClusterBytes() % SLOT == 0
  {
  }

  lemma SnapOnDisk(fs: FileSystem)
    requires fs.v.Valid() && fs.v.IsDir(fs.dir) && Inv(fs.Snap())
    ensures OnDisk(fs.Snap(), fs.v.rootDir)
  {
    hide FatVolume.Valid, Slots, Entries;
  }

  /** A file system that looks at directory `c` of the volume. */
  lemma SnapIn(fs: FileSystem, gs: FileSystem, c: nat)
    requires fs.v.Valid() && gs.v == fs.v && gs.dir == c && gs.owners == fs.owners && 2 <= c < |fs.v.data|
    ensures gs.Snap() == In(fs.Snap(), c, fs.v.rootDir) && gs.v.IsDir(c)
  {
    hide FatVolume.Valid, Slots, Entries;
  }

  lemma SnapBack(fs: FileSystem, gs: FileSystem, s: Store)
    requires fs.v.Valid() && gs.v == fs.v && gs.owners == fs.owners && gs.dir >= 2 && fs.v.IsDir(fs.dir)
    requires s.home == fs.v.DirCluster(fs.dir) && s.home < |fs.v.data|
    requires gs.dir < |fs.v.data|
    ensures fs.Snap() == Back(s, gs.Snap()) && gs.Snap().slots == Slots(gs.Snap().data[gs.dir])
  {
    hide FatVolume.Valid, Slots, Entries;
  }

  /** A directory is made, entered with no file open, worked in, and left with no file open: the calls inside answer as
      those of an abstract file system that starts empty, and the parent then shows what it did after mkdir but for the
      free space and for whether the new directory is empty. */
  method RunInNew(fs: FileSystem, name: Name, ops: seq<Op>)
    returns (code: int, gs: FileSystem, replies: seq<Reply>)
    requires fs.Valid() && Legal(fs.Tight(), fs.Visible(), Mkdir(name)) && NoneOpen(fs.Visible().handles)
    requires var cs, start := fs.v.ClusterBytes(), Start(fs.v.ClusterBytes(), fs.Visible(), name);
             LegalRun(fs.Tight(), cs, start, ops) && NoneOpen(StepAll(cs, start, ops).0.handles)
    modifies fs.v, fs.v.disk, fs.v.cbuf, fs.v.fat, fs.v.root, fs`owners
    ensures fs.Valid() && OthersKept(old(fs.Snap()), fs.Snap()) && gs.Valid()
    ensures var cs, a := fs.v.ClusterBytes(), old(fs.Visible());
      var b, start := Step(cs, a, Mkdir(name)).0, Start(cs, a, name);
      && Step(cs, a, Mkdir(name)).1 == Code(code)
      && (code != 0 ==> fs.Visible() == b)
      && (code == 0 ==>
            && gs.v == fs.v && (gs.Visible(), replies) == StepAll(cs, start, ops)
            && name in b.subdirs
            && fs.Visible() == b.(space := gs.Visible().space,
                                  subdirs := b.subdirs[name := FM.Folder(1, false, NoneUsed(gs.Snap().slots, 2))])
            && (SavedAll(cs, start, ops, true) ==> fs.v.TableClean()))
  {
    hide FileSystem.Visible, FileSystem.Snap, FatVolume.Valid, FatVolume.IsDir, Inv, HandlesOk, ViewOf, Step, StepAll,
         Legal, LegalRun, NewDir, OthersKept, SavedAll, DirMap, ClusterOf, NoneUsed, EmptyDir, FatVolume.TableClean;
    ghost var s := fs.Snap();
    code := fs.FsMkdir(name);
    gs, replies := fs, [];
    if code == 0 {
      ghost var t := fs.Snap();
      gs, replies := RunInside(fs, name, ops);
      OthersTrans(s, t, fs.Snap());
    }
  }

  /** Enter a directory just made. */
  method Enter(fs: FileSystem, name: Name) returns (gs: FileSystem)
    requires fs.Valid() && NewDir(fs.Snap(), name, fs.dir)
    ensures fresh(gs) && fresh(gs.handles) && gs.Valid() && gs.v == fs.v && gs.dir == HeadOf(old(fs.Snap()), name) >= 2
    ensures gs.dir < |old(fs.Snap()).data| && gs.Snap() == In(old(fs.Snap()), gs.dir, fs.v.rootDir)
    ensures fs.v.ClusterBytes() >= 2 * SLOT && fs.v.ClusterBytes() % SLOT == 0
    ensures gs.Visible() == EmptyDir(fs.v.ClusterBytes(), old(fs.Visible()).space)
  {
    hide FatVolume.Valid, Inv, HandlesOk, ViewOf, Slots, Entries, DirMap, ClusterOf, EmptyDir, HeadOf, In, FindFrom,
         UniqueNames, DotsOnly;
    ghost var s := fs.Snap();
    var i, e := fs.FindInDir(name);
    Head(s, name, i);
    gs := LookAt(fs, name, ClusterOf(fs.v.kind, e));
  }

  method LookAt(fs: FileSystem, ghost name: Name, c: nat) returns (gs: FileSystem)
    requires fs.Valid() && NewDir(fs.Snap(), name, fs.dir) && c == HeadOf(fs.Snap(), name) >= 2
    requires c < |fs.Snap().data|
    ensures fresh(gs) && fresh(gs.handles) && gs.Valid() && gs.v == fs.v && gs.dir == c
    ensures gs.Snap() == In(old(fs.Snap()), c, fs.v.rootDir)
    ensures fs.v.ClusterBytes() >= 2 * SLOT && fs.v.ClusterBytes() % SLOT == 0
    ensures gs.Visible() == EmptyDir(fs.v.ClusterBytes(), old(fs.Visible()).space)
  {
    hide FatVolume.Valid, Inv, HandlesOk, ViewOf, Slots, Entries, DirMap, ClusterOf, EmptyDir, UniqueNames, DotsOnly,
         NewAt, In;
    ghost var s := fs.Snap();
    BlockSlots(fs.v);
    gs := new FileSystem(fs.v, c, fs.owners);
    SnapIn(fs, gs, c);
    Entered(s, c, fs.dir, fs.v.rootDir, gs.handles[..]);
    SpaceOfView(s, fs.handles[..]);
  }

  /** Leave it again. */
  lemma Returned(fs: FileSystem, gs: FileSystem, s: Store, name: Name, root: seq<byte>)
    requires gs.Valid() && gs.v == fs.v && gs.owners == fs.owners && fs.handles.Length == MAX_HANDLES
    requires Inv(s) && HandlesOk(s, fs.handles[..]) && NewDir(s, name, fs.dir) && OnDisk(s, root)
    requires s.cs >= 2 * SLOT && s.cs % SLOT == 0 && s.home == fs.v.DirCluster(fs.dir) && s.kind == fs.v.kind
    requires gs.dir == HeadOf(s, name) >= 2 && gs.dir < |s.data| && OthersKept(In(s, gs.dir, root), gs.Snap())
    requires s.home == 0 ==> fs.dir == 0 && !fs.v.kind.Fat32?
    requires s.home != 0 ==> s.home >= 2
    ensures fs.Valid() && OthersKept(s, fs.Snap())
    ensures var a := ViewOf(s, fs.handles[..]);
      && name in a.subdirs
      && fs.Visible() == a.(space := gs.Visible().space,
                            subdirs := a.subdirs[name := FM.Folder(1, false, NoneUsed(gs.Snap().slots, 2))])
  {
    hide FatVolume.Valid, Inv, HandlesOk, ViewOf, Slots, Entries, OthersKept, NoneUsed, NewDir, HeadOf;
    SameLength(In(s, gs.dir, root), gs.Snap());
    SnapBack(fs, gs, s);
    BackInv(s, gs.Snap(), name, fs.dir, root, fs.handles[..]);
    SpaceOfView(gs.Snap(), gs.handles[..]);
  }

  method RunInside(fs: FileSystem, name: Name, ops: seq<Op>) returns (gs: FileSystem, replies: seq<Reply>)
    requires fs.Valid() && NewDir(fs.Snap(), name, fs.dir)
    requires var cs, start := fs.v.ClusterBytes(), EmptyDir(fs.v.ClusterBytes(), fs.Visible().space);
             LegalRun(fs.Tight(), cs, start, ops)
    modifies fs.v, fs.v.disk, fs.v.cbuf, fs.v.fat, fs.v.root, fs`owners
    ensures fs.Valid() && OthersKept(old(fs.Snap()), fs.Snap()) && gs.Valid() && gs.v == fs.v
    ensures var cs, a := fs.v.ClusterBytes(), old(fs.Visible());
      var start := EmptyDir(cs, a.space);
      && (gs.Visible(), replies) == StepAll(cs, start, ops) && name in a.subdirs
      && fs.Visible() == a.(space := gs.Visible().space,
                            subdirs := a.subdirs[name := FM.Folder(1, false, NoneUsed(gs.Snap().slots, 2))])
      && (old(fs.v.TableClean()) && SavedAll(cs, start, ops, true) ==> fs.v.TableClean())
  {
    hide FatVolume.Valid, Inv, HandlesOk, ViewOf, Step, StepAll, Slots, Entries, Legal, LegalRun, OthersKept,
         SavedAll, NoneUsed, EmptyDir, FatVolume.TableClean, NewDir, HeadOf, In;
    ghost var s, root := fs.Snap(), fs.v.rootDir;
    SnapOnDisk(fs);
    gs := Enter(fs, name);
    replies := Run(gs, ops);
    fs.owners := gs.owners;
    Returned(fs, gs, s, name, root);
  }

  lemma SameLength(s: Store, u: Store)
    requires OthersKept(s, u)
    ensures |u.data| == |s.data|
  {
  }

  lemma Head(s: Store, name: Name, i: int)
    requires Inv(s) && i == FindFrom(s.slots, name, 0) && exists parent: nat :: NewDir(s, name, parent)
    ensures i >= 0 && UniqueNames(s.slots) && name in DirMap(s.slots) && s.slots[i] == DirMap(s.slots)[name]
    ensures 2 <= ClusterOf(s.kind, s.slots[i]) == HeadOf(s, name) < |s.data|
  {
    hide IsFolder, ClusterOf, DirMap, NewAt, TableOk;
    FindIsLookup(s.slots, name);
    FolderHead(s, i);
  }
}
