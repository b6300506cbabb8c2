/** Files of one directory of a mounted volume: open handles, reads, writes, creation, removal. */
module FileSystems {
  import opened Bytes
  import opened Disks
  import opened FatCodec
  import opened FatVolumes
  import opened Chains
  import opened FatAlloc
  import opened Directory
  import opened Stores
  import opened Writing
  import opened DirSteps
  import opened Chunks
  import opened Sessions
  import opened FsModel
  import FM = FileModel

  class FileSystem {
    const v: FatVolume
    const dir: nat
    const handles: array<Handle>
    /** The chains of the volume, each under its first cluster. */
    ghost var owners: map<nat, seq<nat>>

    constructor (v: FatVolume, dir: nat, ghost owners: map<nat, seq<nat>>)
      ensures this.v == v && this.dir == dir && this.owners == owners && fresh(handles) && handles.Length == MAX_HANDLES
      ensures forall i | 0 <= i < MAX_HANDLES :: !handles[i].inUse
    {
      this.v, this.dir, this.owners := v, dir, owners;
      handles := new Handle[MAX_HANDLES](_ => Handle(false, 0, 0, 0, 0));
    }

    ghost function Snap(): Store
      requires v.Valid()
      reads this, v, v.disk, v.fat, v.cbuf, v.root
    {
      Store(v.kind, v.ClusterBytes(), v.Fat(), v.data, Slots(v.DirBytes(dir)), v.DirCluster(dir), owners,
            if v.DirCluster(dir) == 0 then [] else v.rootDir)
    }

    /** Volume and directory are in order, and the fixed root is on the device as it is in memory. */
    ghost predicate Ready()
      reads this, v, v.disk, v.fat, v.cbuf, v.root
    {
      v.Valid() && v.disk.reliable && v.IsDir(dir) && !v.rootDirty
    }

    ghost predicate Mounted()
      reads this, v, v.disk, v.fat, v.cbuf, v.root
    {
      Ready() && Inv(Snap())
    }

    /** Allocate a cluster and link it behind the last one of a chain. */
    method ExtendOne(head: nat, last: nat) returns (c: nat)
      requires Mounted() && head in owners && |owners[head]| > 0 && last == LastOf(owners[head])
      requires CanAlloc(Snap())
      modifies v, v.disk, v.cbuf, v.fat
      ensures v.Valid() && !v.rootDirty && v.data == old(v.data) && v.rootDir == old(v.rootDir)
      ensures c == 0 ==> v.Fat() == old(v.Fat()) && old(Snap()).Space() == FM.Space(0, 0)
      ensures c != 0 ==> Linked(old(Snap()), v.Fat(), head, c)
    {
      hide FatVolume.Valid, FatVolume.IsDir, FatVolume.DirBytes, Entries, Eof, Radix, MaxCluster, Inv, Slots,
           NoneFree, FreeSet, Allocated, Linked, Extended;
      ghost var s := Snap();
      LastInTable(s, head);
      c := AllocCluster(v);
      AllocatedWhere(s, v.Fat(), c);
      if c == 0 {
        return;
      }
      ClusterFits(s, c);
      EofFits(v.kind);
      v.FatSet(last, c);
      v.FatSet(c, Eof(v.kind));
      LinkedBy(s, v.Fat(), head, c);
    }

    /** From the head of a chain to its cluster `idx`, allocating it when it is one past the end of the chain. */
    method WalkExtend(head: nat, idx: nat) returns (c: nat, full: bool)
      requires Mounted() && head in owners && |owners[head]| > 0 && idx <= |owners[head]|
      requires idx == |owners[head]| ==> CanAlloc(Snap())
      modifies v, v.disk, v.cbuf, v.fat
      ensures v.Valid() && !v.rootDirty && v.data == old(v.data) && v.rootDir == old(v.rootDir)
      ensures idx < |owners[head]| ==> !full && c == owners[head][idx] && v.Fat() == old(v.Fat())
      ensures idx == |owners[head]| && full ==> v.Fat() == old(v.Fat()) && old(Snap()).Space() == FM.Space(0, 0)
      ensures idx == |owners[head]| && !full ==> Linked(old(Snap()), v.Fat(), head, c)
    {
      hide FatVolume.Valid, Entries, Eof, Radix, MaxCluster, Inv, Slots, Linked;
      ghost var s, chain := Snap(), owners[head];
      LastInTable(s, head);
      c, full := head, false;
      var i: nat := 0;
      while i < idx
        invariant i <= idx && (i < |chain| || i == idx)
        invariant v.Valid() && !v.rootDirty && v.data == old(v.data) && v.rootDir == old(v.rootDir)
        invariant i < |chain| ==> c == chain[i] && v.table == old(v.table)
        invariant i == |chain| ==> Linked(s, v.Fat(), head, c)
      {
        ChainStep(s, head, i);
        var nx := v.FatGet(c);
        if nx >= Eof(v.kind) {
          nx := ExtendOne(head, c);
          if nx == 0 {
            full := true;
            return;
          }
        }
        c := nx;
        i := i + 1;
      }
    }

    /** One turn of the loop of fs_write; no bytes when the loop ends here. */
    method WriteChunk(ghost s0: Store, head: nat, ghost size: nat, pos: nat, buf: seq<byte>, total: nat)
      returns (chunk: nat)
      requires Mounted() && CanWrite(s0, head, size, pos) && CanGrow(s0, head, size)
      requires total < |buf| && Wrote(s0, Snap(), head, size, pos, buf[..total])
      modifies v, v.disk, v.cbuf, v.fat, `owners
      ensures Ready() && v.rootDir == old(v.rootDir)
      ensures chunk == 0 ==> Written(s0, Snap(), head, size, pos, buf, total)
      ensures chunk > 0 ==> total + chunk <= |buf| && Wrote(s0, Snap(), head, size, pos, buf[..total + chunk])
    {
      hide FatVolume.Valid, Entries, Inv, FM.Put, Slots, Wrote, Written, Linked, Extended, FileOk, FileAt, Pos, Quot,
           Rem, CanWrite, CanGrow, CanAlloc, Splice, Eof;
      ghost var s := Snap();
      var cs, p := v.ClusterBytes(), pos + total;
      var idx, o := Quot(p, cs), Rem(p, cs);
      ChunkStart(s0, s, head, size, pos, buf[..total]);
      var c, full := WalkExtend(head, idx);
      ghost var s1 := AfterWalk(s, v.Fat(), head, idx, c);
      if full {
        ChunkNone(s0, s, head, size, pos, buf, total);
        return 0;
      }
      owners := s1.owners;
      WalkedTo(s, v.Fat(), head, idx, c);
      var ok, cbuf := v.ReadCluster(c);
      if !ok {
        ChunkStops(s0, s, head, size, pos, buf, total, v.Fat(), c);
        return 0;
      }
      chunk := FM.Min(cs - o, |buf| - total);
      var block := Splice(cbuf, o, buf[total..total + chunk]);
      ok := v.WriteCluster(c, block);
      assert v.data == s1.data[c := block];
      ChunkDone(s0, s, head, size, pos, buf, total, v.Fat(), c, chunk);
    }

    /** The loop of fs_write: `total` bytes of `buf` go to position `pos` of the chain under `head`. */
    method WriteLoop(head: nat, ghost size: nat, pos: nat, buf: seq<byte>) returns (total: nat)
      requires Mounted() && CanWrite(Snap(), head, size, pos) && CanGrow(Snap(), head, size)
      modifies v, v.disk, v.cbuf, v.fat, `owners
      ensures Ready() && v.rootDir == old(v.rootDir)
      ensures total <= |buf| && Written(old(Snap()), Snap(), head, size, pos, buf, total)
    {
      hide FatVolume.Valid, Inv, FM.Put, Slots, Written, Frame, FileOk, FileAt, CanWrite, CanGrow, FM.Write;
      ghost var s0 := Snap();
      total := 0;
      WroteNothing(s0, head, size, pos);
      while total < |buf|
        invariant total <= |buf| && Ready() && v.rootDir == old(v.rootDir)
        invariant Wrote(s0, Snap(), head, size, pos, buf[..total])
      {
        var chunk := WriteChunk(s0, head, size, pos, buf, total);
        if chunk == 0 {
          return;
        }
        total := total + chunk;
      }
      assert buf[..total] == buf;
      EndAll(s0, Snap(), head, size, pos, buf);
    }

    // ---- directory entries ----

    /** Load the directory, edit one slot, store the directory. */
    method EditSlot(i: nat, edit: Slot -> Slot)
      requires Ready() && i < |Snap().slots| && HomeOk(Snap())
      modifies v, v.disk, v.root
      ensures Ready() && Snap() == Edited(old(Snap()), i, edit(old(Snap()).slots[i]))
      ensures old(v.TableClean()) ==> v.TableClean()
    {
      hide FatVolume.Valid, Entries, Splice, Slots;
      ghost var s := Snap();
      var ok, buf := v.LoadDir(dir);
      SlotCount(buf, i);
      var e := edit(SlotAt(buf, i));
      StoreSlot(buf, i, e);
      ok := v.StoreDir(dir, Splice(buf, i * SLOT, e));
    }

    // ---- what callers see ----

    ghost predicate Valid()
      reads this, v, v.disk, v.fat, v.cbuf, v.root, handles
      ensures Valid() ==> v.ClusterBytes() > 0
    {
      Mounted() && handles.Length == MAX_HANDLES && HandlesOk(Snap(), handles[..])
    }

    lemma ValidVolume()
      requires Valid()
      ensures v.Valid()
    {
    }

    ghost function Visible(): View
      requires Valid()
      reads this, v, v.disk, v.fat, v.cbuf, v.root, handles
    {
      ViewOf(Snap(), handles[..])
    }

    /** The table has no entry at or above the end mark. */
    ghost predicate Tight()
      reads v
    {
      v.Max() <= Eof(v.kind)
    }

    /** A handle on a file of the directory, at position 0: the lowest one not in use. */
    method FsOpen(name: Name) returns (h: int)
      requires Valid()
      modifies handles
      ensures Valid() && Step(v.ClusterBytes(), old(Visible()), Open(name)) == (Visible(), Code(h))
      ensures OthersKept(old(Snap()), Snap()) && v.TableClean() == old(v.TableClean())
      ensures h == -1 <==>
        || (forall i | 0 <= i < 8 :: old(handles[i].inUse))
        || forall k | FirstOfName(Snap().slots, name, k) :: (Snap().slots[k][11] as bv8) & 0x10 != 0
      ensures h == -1 || (0 <= h < 8 && !old(handles[h].inUse)
        && exists k | FirstOfName(Snap().slots, name, k) :: var e := Snap().slots[k];
          handles[..] == old(handles[..])[h := Handle(true, ClusterOf(v.kind, e), SizeOf(e), 0, k)])
    {
      hide FatVolume.Valid, Inv, Slots, Entries, ViewOf, HandlesOk, FindFrom, OthersKept, FirstOfName, IsSubdir;
      ghost var s, hs := Snap(), handles[..];
      OthersSame(s);
      var i, e := FindInDir(name);
      FoundFile(s, hs, name, i);
      FindBytes(s.slots, name, 0);
      OneFirst(s.slots, name);
      AttributeBits(e);
      if i == -1 || IsSubdir(e) {
        return -1;
      }
      h := AllocHandle();
      if h == -1 {
        return;
      }
      var x := Handle(true, ClusterOf(v.kind, e), SizeOf(e), 0, i);
      handles[h] := x;
      SetHandle(s, hs, h, x);
      assert handles[..] == hs[h := x];
    }

    method AllocHandle() returns (h: int)
      requires Valid()
      ensures h == LowestClosed(Visible().handles, 0) && -1 <= h < MAX_HANDLES
      ensures forall i | 0 <= i < if h == -1 then MAX_HANDLES else h :: handles[i].inUse
      ensures h != -1 ==> !handles[h].inUse
    {
      hide FatVolume.Valid, Inv, Slots, Entries, HandlesOk, Files, Subdirs, FreeSlots;
      ghost var s, hs := Snap(), handles[..];
      h := 0;
      while h < MAX_HANDLES
        invariant 0 <= h <= MAX_HANDLES
        invariant LowestClosed(ViewOf(s, hs).handles, 0) == LowestClosed(ViewOf(s, hs).handles, h)
        invariant forall i | 0 <= i < h :: handles[i].inUse
      {
        UseOfHandle(s, hs, h);
        if !handles[h].inUse {
          return;
        }
        h := h + 1;
      }
      h := -1;
    }

    /** The slot of a name, and what it holds. */
    method FindInDir(name: Name) returns (i: int, e: Slot)
      requires Mounted()
      ensures i == FindFrom(Snap().slots, name, 0) && (i >= 0 ==> e == Snap().slots[i])
    {
      hide FatVolume.Valid, Inv, Entries, IsEntry, NameOf;
      var ok, buf := v.LoadDir(dir);
      var n: nat := |buf| / SLOT;
      i, e := 0, seq(SLOT, _ => 0);
      while i < n
        invariant 0 <= i <= n && FindFrom(Slots(buf), name, 0) == FindFrom(Slots(buf), name, i)
      {
        e := SlotAt(buf, i);
        assert Slots(buf)[i] == e;
        if e[0] == 0 {
          break;
        }
        if IsEntry(e) && NameOf(e) == name {
          return;
        }
        i := i + 1;
      }
      i := -1;
    }

    /** At most `n` bytes from the position of a handle, which moves behind them. */
    method FsRead(h: int, n: nat) returns (code: int, out: seq<byte>)
      requires Valid()
      modifies handles, v, v.disk, v.cbuf
      ensures Valid()
      ensures Step(v.ClusterBytes(), old(Visible()), Read(h, n)) == (Visible(), if code == -1 then Code(-1)
          else Data(out))
      ensures code == -1 || code == |out|
      ensures OthersKept(old(Snap()), Snap()) && (old(v.TableClean()) ==> v.TableClean())
    {
      hide FatVolume.Valid, Inv, Slots, Entries, ViewOf, HandlesOk, Files, FileAt, HandleOk, OthersKept;
      ghost var s, hs := Snap(), handles[..];
      OthersSame(s);
      out := [];
      if h < 0 || h >= MAX_HANDLES || !handles[h].inUse {
        ClosedHandle(s, hs, h);
        return -1, [];
      }
      var f := handles[h];
      ReadableHandle(s, hs, h);
      out := ReadLoop(f, n);
      ReadEnds(s, hs, h, n, out);
      handles[h] := f.(pos := f.pos + |out|);
      assert handles[..] == hs[h := f.(pos := f.pos + |out|)];
      code := |out|;
    }

    method ReadLoop(f: Handle, n: nat) returns (out: seq<byte>)
      requires Mounted() && FileOk(Snap(), f.firstCluster, f.size) && f.pos <= f.size
      modifies v, v.disk, v.cbuf
      ensures Ready() && Snap() == old(Snap()) && (old(v.TableClean()) ==> v.TableClean())
      ensures out == ReadAt(FileAt(old(Snap()), f.firstCluster, f.size).bytes, f.pos, n)
    {
      hide FatVolume.Valid, Inv, Slots, Entries, FileOk, FileAt;
      ghost var s := Snap();
      ghost var file := FileAt(s, f.firstCluster, f.size);
      out := [];
      var p: nat := f.pos;
      while |out| < n && p < f.size
        invariant f.pos <= p <= f.size && p == f.pos + |out| && |out| <= n
        invariant p > f.pos ==> |file.bytes| == f.size && out == file.bytes[f.pos..p]
        invariant Ready() && Snap() == s && (old(v.TableClean()) ==> v.TableClean())
      {
        var chunk := ReadChunk(f, p, n - |out|);
        assert file.bytes[f.pos..p + |chunk|] == file.bytes[f.pos..p] + file.bytes[p..p + |chunk|];
        out := out + chunk;
        p := p + |chunk|;
      }
      SizeOfFile(s, f.firstCluster, f.size);
    }

    /** One turn of the loop of fs_read: the rest of one cluster, of the file, or of the request. The chain covers
        the file, so the walk never meets the end mark and the cluster is always on the device. */
    method ReadChunk(f: Handle, p: nat, n: nat) returns (chunk: seq<byte>)
      requires Mounted() && FileOk(Snap(), f.firstCluster, f.size) && p < f.size && n > 0
      modifies v, v.disk, v.cbuf
      ensures Ready() && Snap() == old(Snap()) && (old(v.TableClean()) ==> v.TableClean())
      ensures 0 < |chunk| <= n && p + |chunk| <= f.size
      ensures var file := FileAt(Snap(), f.firstCluster, f.size);
              |file.bytes| == f.size && chunk == file.bytes[p..p + |chunk|]
    {
      hide FatVolume.Valid, Inv, Slots, Entries, FileOk, Quot, Rem, Pos, Eof, Walk, InRange, Content;
      ghost var s := Snap();
      var cs := v.ClusterBytes();
      var idx, o := Quot(p, cs), Rem(p, cs);
      NextToRead(s, f.firstCluster, f.size, p);
      var c := ClusterAfter(v, f.firstCluster, idx);
      var ok, cbuf := v.ReadCluster(c);
      var k := FM.Min(FM.Min(cs - o, f.size - p), n);
      ChunkOfContent(s.data, s.owners[f.firstCluster], cs, f.size, p, k);
      chunk := cbuf[o..o + k];
    }

    /** The head of a file's chain, allocated when the file has none. */
    method StartChain(f: Handle) returns (first: nat)
      requires Mounted() && HandleOk(Snap(), f) && f.inUse && CanAlloc(Snap())
      modifies v, v.disk, v.cbuf, v.fat, `owners
      ensures Ready()
      ensures first == 0 ==> f.firstCluster == 0 && Snap() == old(Snap()) && old(Snap()).Space() == FM.Space(0, 0)
      ensures first == 0 && old(v.TableClean()) ==> v.TableClean()
      ensures first != 0 ==> Started(old(Snap()), Snap(), f, first)
    {
      hide FatVolume.Valid, Inv, Slots, Entries, HandleOk, CanAlloc, Allocated, Eof;
      ghost var s := Snap();
      first := f.firstCluster;
      if first == 0 {
        first := AllocCluster(v);
        AllocatedWhere(s, v.Fat(), first);
        if first == 0 {
          return;
        }
        owners := owners[first := [first]];
      }
    }

    /** Bytes to the position of a handle, which moves behind them: -1 when not even a first cluster can be had. */
    method FsWrite(h: int, buf: seq<byte>) returns (code: int)
      requires Valid() && Legal(Tight(), Visible(), Write(h, buf))
      modifies handles, v, v.disk, v.cbuf, v.fat, v.root, `owners
      ensures Valid() && Step(v.ClusterBytes(), old(Visible()), Write(h, buf)) == (Visible(), Code(code))
      ensures OthersKept(old(Snap()), Snap()) && (code != -1 || old(v.TableClean()) ==> v.TableClean())
    {
      hide FatVolume.Valid, Inv, Slots, Entries, ViewOf, HandlesOk, Legal, OthersKept;
      OthersSame(Snap());
      if h < 0 || h >= MAX_HANDLES || !handles[h].inUse {
        ClosedHandle(Snap(), handles[..], h);
        return -1;
      }
      code := WriteHandle(h, buf);
    }

    method WriteHandle(h: nat, buf: seq<byte>) returns (code: int)
      requires Valid() && h < MAX_HANDLES && handles[h].inUse && Legal(Tight(), Visible(), Write(h, buf))
      modifies handles, v, v.disk, v.cbuf, v.fat, v.root, `owners
      ensures Ready()
      ensures Agrees(old(Snap()), old(handles[..]), Snap(), handles[..], Write(h, buf), Code(code))
      ensures code != -1 || old(v.TableClean()) ==> v.TableClean()
    {
      hide FatVolume.Valid, Inv, Slots, Entries, ViewOf, HandlesOk, FileOf, Files, FileAt, FileOk, Legal, CanAlloc,
           CanGrow, CanWrite, Written, Edited, Eof, Frame, WithFile, FM.Write, Started, HandleOk, Step, Agrees;
      ghost var s, hs := Snap(), handles[..];
      OpenHandle(s, hs, h);
      LegalWrite(Tight(), s, hs, h, buf);
      var f := handles[h];
      var first := StartChain(f);
      if first == 0 {
        WriteRefused(s, hs, h, buf);
        return -1;
      }
      ghost var s0 := Snap();
      WriteStarts(s, s0, f, first);
      var total := WriteLoop(first, f.size, f.pos, buf);
      var pos := f.pos + total;
      var size := if pos > f.size then pos else f.size;
      WriteEnds(s, hs, s0, Snap(), h, first, buf, total);
      EndWrite(h, first, size, pos);
      code := total;
    }

    /** The entry and the handle of a file after it has been written, and the table written back. */
    method EndWrite(h: nat, first: nat, size: nat, pos: nat)
      requires Ready() && HomeOk(Snap()) && h < handles.Length && handles[h].slot < |Snap().slots|
      modifies handles, v, v.disk, v.cbuf, v.fat, v.root
      ensures Ready() && v.TableClean()
      ensures var i := old(handles[h].slot);
        && Snap() == Edited(old(Snap()), i, WithFile(v.kind, old(Snap()).slots[i], first, size))
        && handles[..] == old(handles[..])[h := Handle(true, first, size, pos, i)]
    {
      hide FatVolume.Valid, Slots, Entries, WithFile, Edited;
      var i := handles[h].slot;
      EditSlot(i, e => WithFile(v.kind, e, first, size));
      var ok := v.FlushFat();
      handles[h] := Handle(true, first, size, pos, i);
    }

    /** Store an entry in the first free slot; -1 when the directory is full. */
    method DirAddEntry(e: Slot) returns (i: int)
      requires Ready() && HomeOk(Snap())
      modifies v, v.disk, v.root
      ensures Ready() && i == FirstFree(old(Snap()).slots, 0) && (old(v.TableClean()) ==> v.TableClean())
      ensures Snap() == if i == -1 then old(Snap()) else Edited(old(Snap()), i, e)
    {
      hide FatVolume.Valid, Entries, Splice, Slots;
      ghost var s := Snap();
      var ok, buf := v.LoadDir(dir);
      var n := |buf| / SLOT;
      SlotTotal(buf);
      i := 0;
      while i < n
        invariant 0 <= i <= n && FirstFree(s.slots, 0) == FirstFree(s.slots, i)
        invariant Ready() && Snap() == s && v.DirBytes(dir) == buf && (old(v.TableClean()) ==> v.TableClean())
      {
        SlotCount(buf, i);
        if IsFree(SlotAt(buf, i)) {
          StoreSlot(buf, i, e);
          ok := v.StoreDir(dir, Splice(buf, i * SLOT, e));
          return;
        }
        i := i + 1;
      }
      i := -1;
    }

    /** Slot `i` holds a new file, which is its name, the archive bit 0x20 and zeros. */
    ghost predicate CreatedAt(s: Store, t: Store, i: int, name: Name) {
      0 <= i < |s.slots| && t == Edited(s, i, name + [0x20] + seq(20, _ => 0))
    }

    lemma NewFileAt(s: Store, i: nat, name: Name)
      requires i < |s.slots|
      ensures CreatedAt(s, Edited(s, i, NewSlot(s.kind, name, ATTR_ARC, 0)), i, name)
    {
      NewFileBytes(s.kind, name);
    }

    /** An empty file under a new name. */
    method FsCreate(name: Name) returns (code: int)
      requires Valid() && Ordinary(name)
      modifies v, v.disk, v.root
      ensures Valid() && Step(v.ClusterBytes(), old(Visible()), Create(name)) == (Visible(), Code(code))
      ensures OthersKept(old(Snap()), Snap()) && (old(v.TableClean()) ==> v.TableClean())
      ensures code == 0 ==> CreatedAt(old(Snap()), Snap(), FirstFree(old(Snap()).slots, 0), name)
    {
      hide FatVolume.Valid, Inv, Slots, Entries, ViewOf, HandlesOk, FindFrom, FirstFree, Edited, NewSlot, FreeSlots,
           OthersKept, CreatedAt;
      ghost var s, hs := Snap(), handles[..];
      OthersSame(s);
      HomeIsOk(s);
      RoomOfView(s, hs);
      var i, found := FindInDir(name);
      FoundFile(s, hs, name, i);
      if i >= 0 || Reserved(name) {
        return -1;
      }
      i := DirAddEntry(NewSlot(v.kind, name, ATTR_ARC, 0));
      if i == -1 {
        return -1;
      }
      NewFileAt(s, i, name);
      CreateEnds(s, hs, name, i);
      assert handles[..] == hs;
      code := 0;
    }

    /** A file no handle is open on, removed: its chain is freed, its slot marked. */
    method FsUnlink(name: Name) returns (code: int)
      requires Valid() && Legal(Tight(), Visible(), Unlink(name))
      modifies v, v.disk, v.cbuf, v.fat, v.root, `owners
      ensures Valid() && Step(v.ClusterBytes(), old(Visible()), Unlink(name)) == (Visible(), Code(code))
      ensures OthersKept(old(Snap()), Snap()) && (code != -1 || old(v.TableClean()) ==> v.TableClean())
    {
      hide FatVolume.Valid, Inv, Slots, Entries, ViewOf, HandlesOk, FindFrom, Edited, Freed, ClusterOf, Eof, InRange,
           OthersKept, Released, HomeOk;
      ghost var s, hs := Snap(), handles[..];
      OthersSame(s);
      var i, e := FindInDir(name);
      FoundFile(s, hs, name, i);
      if i == -1 || IsSubdir(e) {
        return -1;
      }
      var head := ClusterOf(v.kind, e);
      FileHead(s, i);
      UnlinkEnds(s, hs, name, i);
      Remove(i, head);
      assert handles[..] == hs;
      code := 0;
    }

    /** The chain under `head`, if there is one, given back, slot `i` marked deleted, and the table written back. */
    method Remove(i: nat, head: nat)
      requires Mounted() && i < |Snap().slots| && InRange(v.Fat(), Eof(v.kind)) && head < v.Max()
      requires (head == 0 || head >= 2)
      requires HomeOk(Released(Snap(), head))
      modifies v, v.disk, v.cbuf, v.fat, v.root, `owners
      ensures Ready() && v.TableClean()
      ensures Snap() == Edited(Released(old(Snap()), head), i, old(Snap()).slots[i][0 := DELETED])
    {
      hide FatVolume.Valid, Inv, Slots, Entries, Edited, Freed, Eof, InRange;
      ghost var s := Snap();
      if head != 0 {
        FreeChain(v, head);
        owners := owners - {head};
      }
      assert Snap() == Released(s, head);
      EditSlot(i, x => x[0 := DELETED]);
      var ok := v.FlushFat();
    }

    lemma NameAt(s: Store, i: nat, name: Name)
      requires i < |s.slots|
      ensures RenamedAt(s, Edited(s, i, Renamed(s.slots[i], name)), i, name)
    {
    }

    /** Slot `i` has a new name and all else as before. */
    ghost predicate RenamedAt(s: Store, t: Store, i: int, name: Name) {
      0 <= i < |s.slots| && t == Edited(s, i, name + s.slots[i][11..])
    }

    /** An entry of the directory under another name. */
    method FsRename(from: Name, to: Name) returns (code: int)
      requires Valid() && Legal(Tight(), Visible(), Rename(from, to))
      modifies v, v.disk, v.root
      ensures Valid() && Step(v.ClusterBytes(), old(Visible()), Rename(from, to)) == (Visible(), Code(code))
      ensures OthersKept(old(Snap()), Snap()) && (old(v.TableClean()) ==> v.TableClean())
      ensures code == 0 ==> RenamedAt(old(Snap()), Snap(), FindFrom(old(Snap()).slots, from, 0), to)
    {
      hide FatVolume.Valid, Inv, Slots, Entries, ViewOf, HandlesOk, FindFrom, Edited, Renamed, OthersKept, RenamedAt;
      ghost var s, hs := Snap(), handles[..];
      OthersSame(s);
      HomeIsOk(s);
      var i, e := FindInDir(from);
      FoundFile(s, hs, from, i);
      var j, other := FindInDir(to);
      FoundFile(s, hs, to, j);
      if IsDots(from) || i == -1 || j >= 0 {
        return -1;
      }
      RenameEnds(s, hs, from, to, i);
      EditSlot(i, x => Renamed(x, to));
      NameAt(s, i, to);
      assert handles[..] == hs;
      code := 0;
    }

    /** The next entry from slot `index` on; `next` is where the following call goes on. */
    method FsReadDir(index: nat) returns (found: bool, e: Slot, next: nat)
      requires Valid() && index <= |Snap().slots|
      ensures next <= |Snap().slots|
      ensures Listing(Snap().slots, index) == if found then [e] + Listing(Snap().slots, next) else []
      ensures !found ==> Listing(Snap().slots, next) == []
      ensures index <= next && forall k | index <= k < next - 1 :: Unlisted(Snap().slots[k])
      ensures found ==> index < next && e == Snap().slots[next - 1] && e[0] != 0 && !Unlisted(e)
      ensures !found ==> next == |Snap().slots| || (index < next && Snap().slots[next - 1][0] == 0)
      ensures !found && index < next ==> Snap().slots[next - 1][0] == 0 || Unlisted(Snap().slots[next - 1])
    {
      hide FatVolume.Valid, Inv, Entries, Slots, IsEntry;
      var ok, buf := v.LoadDir(dir);
      var n := |buf| / SLOT;
      SlotTotal(buf);
      TailOf(Snap());
      found, e, next := false, seq(SLOT, _ => 0), index;
      while next < n
        invariant index <= next <= n && Listing(Slots(buf), index) == Listing(Slots(buf), next)
        invariant forall k | index <= k < next :: Unlisted(Slots(buf)[k])
      {
        SlotCount(buf, next);
        e := SlotAt(buf, next);
        AttributeBits(e);
        next := next + 1;
        if e[0] == 0 {
          NothingAfterZero(Slots(buf), next - 1);
          return;
        }
        if IsEntry(e) {
          found := true;
          return;
        }
      }
    }

    /** A new subdirectory. When the directory is full, or the only free cluster is past the device, the cluster
        taken for it stays allocated although no entry refers to it. */
    method FsMkdir(name: Name) returns (code: int)
      requires Valid() && Legal(Tight(), Visible(), Mkdir(name))
      modifies v, v.disk, v.cbuf, v.fat, v.root, `owners
      ensures Valid() && Step(v.ClusterBytes(), old(Visible()), Mkdir(name)) == (Visible(), Code(code))
      ensures OthersKept(old(Snap()), Snap()) && (code != -1 ==> NewDir(Snap(), name, dir))
      ensures code != -1 || (old(v.TableClean()) && Visible().space == old(Visible()).space) ==> v.TableClean()
    {
      hide FatVolume.Valid, Inv, Slots, Entries, ViewOf, HandlesOk, FindFrom, CanAlloc, Legal, OthersKept, NewDir;
      ghost var s, hs := Snap(), handles[..];
      OthersSame(s);
      var i, found := FindInDir(name);
      FoundFile(s, hs, name, i);
      if i >= 0 || Reserved(name) {
        return -1;
      }
      LegalMkdir(Tight(), s, hs, name);
      code := MakeDir(name);
      SpaceOfView(s, hs);
      SpaceOfView(Snap(), hs);
    }

    method MakeDir(name: Name) returns (code: int)
      requires Valid() && Ordinary(name) && FindFrom(Snap().slots, name, 0) == -1 && !Reserved(name) && CanAlloc(Snap())
      modifies v, v.disk, v.cbuf, v.fat, v.root, `owners
      ensures Ready()
      ensures Agrees(old(Snap()), handles[..], Snap(), handles[..], Mkdir(name), Code(code))
      ensures code != -1 ==> NewDir(Snap(), name, dir)
      ensures code != -1 || (old(v.TableClean()) && Snap().Space() == old(Snap()).Space()) ==> v.TableClean()
    {
      hide FatVolume.Valid, Inv, Slots, Entries, ViewOf, HandlesOk, FindFrom, FirstFree, Edited, NewSlot, FreeSlots,
           NewDir, Eof, Allocated, CanAlloc, Agrees, SameFiles, FreeSet, DotBlock, Reserved, Frame, Owns, ClusterOf;
      ghost var s, hs := Snap(), handles[..];
      var c := AllocCluster(v);
      AllocatedWhere(s, v.Fat(), c);
      if c == 0 {
        MkdirRefused(s, hs, name);
        return -1;
      }
      owners := owners[c := [c]];
      ghost var s1 := Snap();
      MkdirTakes(s, s1, hs, c);
      var ok := v.WriteCluster(c, DotBlock(v.kind, v.ClusterBytes(), c, dir));
      ghost var s2 := Snap();
      MkdirWrites(s, s1, s2, c);
      if !ok {
        MkdirLeaks(s, s2, hs, name, c);
        return -1;
      }
      SameSize(s, s2);
      code := PlaceDir(s, name, c);
    }

    /** The entry of a directory whose cluster `c` has been taken and written since `s`. */
    method PlaceDir(ghost s: Store, name: Name, c: nat) returns (code: int)
      requires Mounted() && Inv(s) && HandlesOk(s, handles[..]) && SameFiles(s, Snap()) && Frame(s, Snap(), c)
      requires c !in s.owners
      requires FindFrom(s.slots, name, 0) == -1 && Ordinary(name) && !Reserved(name)
      requires s.Space().free > 0 && Snap().Space() == s.Space().(free := s.Space().free - 1)
      requires c in owners && owners[c] == [c] && 0 != c < |v.data| && c < Snap().Lim() && c != v.DirCluster(dir)
      requires v.data[c] == DotBlock(v.kind, v.ClusterBytes(), c, dir)
      requires forall e | e in s.slots && Owns(e) :: ClusterOf(s.kind, e) != c
      modifies v, v.disk, v.root
      ensures Ready() && (code != -1 ==> v.TableClean()) && (code == -1 ==> Snap() == old(Snap()))
      ensures Agrees(s, handles[..], Snap(), handles[..], Mkdir(name), Code(code))
      ensures code != -1 ==> NewDir(Snap(), name, dir)
    {
      hide FatVolume.Valid, Inv, Slots, Entries, ViewOf, HandlesOk, FindFrom, FirstFree, Edited, NewSlot, FreeSlots,
           NewDir, Eof, Agrees, FreeSet, DotBlock, Reserved, Frame, Owns, ClusterOf, SameItem;
      ghost var s2, hs := Snap(), handles[..];
      HomeIsOk(s2);
      var i := DirAddEntry(NewSlot(v.kind, name, ATTR_DIR, c));
      if i == -1 {
        MkdirLeaks(s, s2, hs, name, c);
        return -1;
      }
      MkdirEnds(s, s2, hs, name, c, i, dir);
      var ok := v.FlushFat();
      code := 0;
    }

    /** An empty subdirectory removed: its chain is freed, its slot marked. */
    method FsRmdir(name: Name) returns (code: int)
      requires Valid()
      modifies v, v.disk, v.cbuf, v.fat, v.root, `owners
      ensures Valid() && Step(v.ClusterBytes(), old(Visible()), Rmdir(name)) == (Visible(), Code(code))
      ensures OthersKept(old(Snap()), Snap()) && (code != -1 || old(v.TableClean()) ==> v.TableClean())
    {
      hide FatVolume.Valid, Inv, Slots, Entries, ViewOf, HandlesOk, FindFrom, Edited, Freed, ClusterOf, Eof, InRange,
           FileAt, NoneUsed, IsFolder, IsFile, IsEntry, IsSubdir, IsDots, OthersKept;
      ghost var s, hs := Snap(), handles[..];
      var i, e := FindInDir(name);
      FoundFile(s, hs, name, i);
      FolderIsNoFile(e);
      if IsDots(name) || i == -1 || !IsSubdir(e) {
        RmdirRefused(s, hs, name, i);
        return -1;
      }
      var c := ClusterOf(v.kind, e);
      FolderHead(s, i);
      var empty := IsEmptyDir(c);
      if !empty {
        RmdirRefused(s, hs, name, i);
        return -1;
      }
      RmdirEnds(s, hs, name, i);
      Remove(i, c);
      assert handles[..] == hs;
      code := 0;
    }

    method IsEmptyDir(c: nat) returns (empty: bool)
      requires Mounted() && 2 <= c < |v.data|
      ensures empty == NoneUsed(Slots(v.data[c]), 2)
    {
      hide FatVolume.Valid, Inv, Slots, Entries;
      var ok, buf := v.ReadCluster(c);
      var n := |buf| / SLOT;
      SlotTotal(buf);
      var i := 2;
      while i < n
        invariant 2 <= i && (i <= n || i == 2) && NoneUsed(Slots(buf), 2) == NoneUsed(Slots(buf), i)
      {
        SlotCount(buf, i);
        if SlotAt(buf, i)[0] == 0 {
          return true;
        }
        if SlotAt(buf, i)[0] != DELETED {
          return false;
        }
        i := i + 1;
      }
      empty := true;
    }

    method FsClose(h: int) returns (code: int)
      requires Valid()
      modifies handles
      ensures Valid() && Step(v.ClusterBytes(), old(Visible()), Close(h)) == (Visible(), Code(code))
      ensures OthersKept(old(Snap()), Snap()) && v.TableClean() == old(v.TableClean())
    {
      hide FatVolume.Valid, Inv, Slots, Entries, ViewOf, HandlesOk, OthersKept;
      ghost var s, hs := Snap(), handles[..];
      OthersSame(s);
      if h < 0 || h >= MAX_HANDLES || !handles[h].inUse {
        ClosedHandle(s, hs, h);
        return -1;
      }
      OpenHandle(s, hs, h);
      handles[h] := handles[h].(inUse := false);
      SetHandle(s, hs, h, hs[h].(inUse := false));
      assert handles[..] == hs[h := hs[h].(inUse := false)];
      code := 0;
    }
  }
}
