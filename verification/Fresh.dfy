/** A freshly formatted and mounted volume: an empty directory and every usable cluster free. */
module FreshVolumes {
  import opened Bytes
  import opened Disks
  import opened FatCodec
  import opened FatVolumes
  import opened Chains
  import opened Directory
  import opened Stores
  import opened DirSteps
  import opened Sessions
  import opened FsModel
  import opened FileSystems
  import opened Mounting
  import opened Formatting
  import FM = FileModel

  /** Entries free on the device, and free entries past its end. */
  function FreshSpace(total: nat): FM.Space
    requires 1024 <= total < WORD
  {
    var s := Plan(total);
    if s.kind.Fat16? then
      var clusters := Quot(total - s.layout.dataLba, s.secPerCluster);
      FM.Space(clusters, Minus(FM.Min(s.layout.fatSectors * 256, Eof(Fat16)), clusters + 2))
    else FM.Space(Minus(s.layout.fatSectors * 128, 3), 0)
  }

  function Minus(a: nat, b: nat): nat { if b <= a then a - b else 0 }

  function FreshRoom(total: nat): nat {
    if total < FAT32_FROM then 256 else ClusterSectors(total) * 16
  }

  function FreshView(total: nat): View
    requires 1024 <= total < WORD
  {
    View(map[], map[], FreshRoom(total), FreshSpace(total), seq(8, _ => Closed))
  }

  /** A FAT16 table is made about twice as large as the device needs, a FAT32 table never larger: entries past the
      device are there to be allocated on FAT16 volumes only. */
  lemma SpareEntries(total: nat)
    requires 16424 <= total < WORD
    ensures FreshSpace(total).spare > 0 <==> total < FAT32_FROM
    ensures FreshSpace(total).free > 0
  {
    hide Quot, ClusterSectors, TableSectors;
    PlanFits(total);
    TableSize(total);
    var s := Plan(total);
    QuotBounds(total - s.layout.dataLba, s.secPerCluster);
  }

  // ---- the fresh table ----

  lemma ZeroSlice(o: nat, w: nat)
    requires o + w <= SECTOR
    ensures ZERO[o..o + w] == seq(w, _ => 0)
  {
  }

  lemma ZeroValue(kind: Kind, odd: bool)
    ensures Value(kind, odd, seq(EntryWidth(kind), _ => 0)) == 0
  {
  }

  lemma EndValue()
    ensures Value(Fat32, false, [0xF8, 0xFF, 0xFF, 0x0F]) == Eof(Fat32)
  {
  }

  /** Every entry of a table that is zero behind its first sector is zero. */
  lemma BehindFirst(kind: Kind, first: Sector, n: nat, c: nat)
    requires !kind.Fat12? && c < MaxCluster(kind, n) && EntryOffset(kind, c) >= SECTOR
    ensures Entries(kind, Join(Image(first, n)), n)[c] == 0
  {
    hide Join, MaxCluster, Entries, Value, EntryOffset, EntryWidth;
    var t, o, w := Image(first, n), EntryOffset(kind, c), EntryWidth(kind);
    EntriesAt(kind, Join(t), n, c);
    EntryInSector(kind, t, c);
    assert t[o / SECTOR] == ZERO;
    hide ZERO;
    ZeroSlice(o % SECTOR, w);
    ZeroValue(kind, c % 2 == 1);
  }

  lemma InFirst(kind: Kind, first: Sector, n: nat, c: nat)
    requires !kind.Fat12? && c < MaxCluster(kind, n) && EntryOffset(kind, c) < SECTOR
    ensures EntryOffset(kind, c) + EntryWidth(kind) <= SECTOR
    ensures Entries(kind, Join(Image(first, n)), n)[c]
         == Value(kind, c % 2 == 1, first[EntryOffset(kind, c)..EntryOffset(kind, c) + EntryWidth(kind)])
  {
    hide Join, MaxCluster, Entries, Value;
    var t := Image(first, n);
    EntriesAt(kind, Join(t), n, c);
    EntryInSector(kind, t, c);
  }

  /** FAT16: all entries from 2 on are free. */
  lemma FreshTable16(n: nat, c: nat)
    requires 2 <= c < MaxCluster(Fat16, n)
    ensures Entries(Fat16, Join(Image(FIRST16, n)), n)[c] == 0
  {
    hide Join, Entries, Image, Value;
    ZeroValue(Fat16, c % 2 == 1);
    if 2 * c >= SECTOR {
      BehindFirst(Fat16, FIRST16, n, c);
    } else {
      InFirst(Fat16, FIRST16, n, c);
      assert FIRST16[2 * c..2 * c + 2] == seq(2, _ => 0);
    }
  }

  /** FAT32: entry 2 ends the chain of the root directory, all entries behind it are free. */
  lemma FreshTable32(n: nat, c: nat)
    requires 2 <= c < MaxCluster(Fat32, n)
    ensures Entries(Fat32, Join(Image(FIRST32, n)), n)[c] == if c == 2 then Eof(Fat32) else 0
  {
    hide Join, Entries, Image, Value, Eof;
    ZeroValue(Fat32, c % 2 == 1);
    EndValue();
    if 4 * c >= SECTOR {
      BehindFirst(Fat32, FIRST32, n, c);
    } else {
      InFirst(Fat32, FIRST32, n, c);
      if c == 2 {
        assert FIRST32[8..12] == [0xF8, 0xFF, 0xFF, 0x0F];
      } else {
        assert FIRST32[4 * c..4 * c + 4] == seq(4, _ => 0);
      }
    }
  }

  // ---- an empty directory ----

  lemma {:induction false} ZeroBytesJoined(n: nat, p: nat)
    requires p < n * SECTOR
    ensures Join(seq(n, _ => ZERO))[p] == 0
  {
    var z: seq<Sector> := seq(n, _ => ZERO);
    assert z[1..] == seq(n - 1, _ => ZERO);
    if p >= SECTOR {
      ZeroBytesJoined(n - 1, p - SECTOR);
    }
  }

  lemma EmptySlots(n: nat, i: nat)
    requires i < n * 16
    ensures |Slots(Join(seq(n, _ => ZERO)))| == n * 16
    ensures Slots(Join(seq(n, _ => ZERO)))[i][0] == 0
  {
    hide Join;
    ZeroBytesJoined(n, i * SLOT);
  }

  // ---- the data area ----

  lemma ChopCount(area: seq<Sector>, size: nat)
    requires size > 0
    ensures |Chop(area, size)| == Quot(|area|, size)
  {
    hide Quot;
    var q := Quot(|area|, size);
    QuotBounds(|area|, size);
    ChopAt(area, size, q);
    BlockStartIsProduct(q, size);
    if q > 0 {
      ChopAt(area, size, q - 1);
      BlockStartIsProduct(q - 1, size);
    }
  }

  // ---- the store ----

  ghost predicate AllFree(fat: seq<nat>, lo: nat, hi: nat) {
    hi <= |fat| && forall c | lo <= c < hi :: fat[c] == 0
  }

  lemma FreeCount(fat: seq<nat>, lo: nat, hi: nat)
    requires lo <= hi && AllFree(fat, lo, hi)
    ensures |FreeSet(fat, lo, hi)| == hi - lo
  {
    assert FreeSet(fat, lo, hi) == Range(lo, hi);
  }

  /** No entry in the directory, no chain but that of the directory itself. */
  ghost predicate Empty(s: Store) {
    && s.cs > 0 && 2 <= |s.data| && (forall c | 2 <= c < |s.data| :: |s.data[c]| == s.cs) && s.Lim() >= 3
    && (forall i | 0 <= i < |s.slots| :: s.slots[i][0] == 0)
    && (s.home == 0 || (s.home == 2 < |s.data| && s.fat[2] == s.Eof()))
    && AllFree(s.fat, if s.home == 0 then 2 else 3, |s.fat|)
    && s.owners == if s.home == 0 then map[] else map[2 := [2]]
  }

  lemma EmptyInv(s: Store)
    requires Empty(s)
    ensures Inv(s)
  {
    hide FatCodec.Eof;
    assert Partition(s.fat, s.Eof(), s.Lim(), s.owners) by {
      if s.home != 0 {
        SingleChain(s.fat, s.Eof(), 2);
        assert 2 in s.owners && 2 in s.owners[2];
      }
    }
    assert InRange(s.fat, s.Eof());
  }

  lemma EmptyView(s: Store, hs: seq<Handle>)
    requires Empty(s) && Inv(s) && (forall i | 0 <= i < |hs| :: !hs[i].inUse)
    ensures HandlesOk(s, hs)
    ensures ViewOf(s, hs) == View(map[], map[], |s.slots|, s.Space(), seq(|hs|, _ => Closed))
  {
    hide FatCodec.Eof, TableOk, FreeSet, Apart;
    var a := ViewOf(s, hs);
    assert DirMap(s.slots) == map[];
    assert FreeSlots(s.slots) == Range(0, |s.slots|);
    assert a.handles == seq(|hs|, _ => Closed);
    assert Files(s) == map[] && Subdirs(s) == map[];
  }

  lemma EmptyIsDir(s: Store)
    requires Empty(s)
    ensures s.home == 0 || s.home < |s.data|
  {
  }

  lemma EmptySpace(s: Store)
    requires Empty(s)
    ensures var lo := if s.home == 0 then 2 else 3;
            s.End() >= lo ==> s.Space() == FM.Space(s.End() - lo, s.Lim() - s.End())
  {
    hide FatCodec.Eof;
    if s.home == 0 && s.End() >= 2 {
      FreeCount(s.fat, 2, s.End());
      FreeCount(s.fat, s.End(), s.Lim());
    } else if s.End() >= 3 {
      FreeCount(s.fat, 3, s.End());
      FreeCount(s.fat, s.End(), s.Lim());
      assert FreeSet(s.fat, 2, s.End()) == FreeSet(s.fat, 3, s.End());
    }
  }

  // ---- formatting, then mounting ----

  /** What the driver has in hand when it has mounted the volume `ss`, formatted as `s`. */
  ghost function StoreOf(s: Shape, ss: seq<Sector>): Store
    requires s.Shape? && s.layout.Fits(ss) && s.secPerCluster > 0
  {
    var parts := s.layout.Of(ss);
    var data := Clusters(parts.data, s.secPerCluster);
    var home := if s.kind.Fat32? then s.rootCluster else 0;
    var dir := if home == 0 then Join(parts.root) else if home < |data| then data[home] else [];
    Store(s.kind, s.secPerCluster * SECTOR, Entries(s.kind, Join(parts.fat1), s.layout.fatSectors), data, Slots(dir),
        home,
          if home == 0 then map[] else map[home := [home]], if home == 0 then [] else Join(parts.root))
  }

  lemma FreshTable(s: Shape, ss: seq<Sector>, hidden: u32, title: seq<byte>)
    requires 1024 <= |ss| < WORD && |title| == 11 && s == Plan(|ss|) && Formatted(ss, hidden, title)
    ensures var fat := Entries(s.kind, Join(s.layout.Of(ss).fat1), s.layout.fatSectors);
      && |fat| == MaxCluster(s.kind, s.layout.fatSectors)
      && forall c | 2 <= c < |fat| :: fat[c] == if s.kind.Fat32? && c == 2 then Eof(Fat32) else 0
  {
    hide Join, Entries, Image, Plan, Eof, FIRST16, FIRST32, BootOk, ZERO, MaxCluster;
    PlanKind(|ss|);
    var n := s.layout.fatSectors;
    forall c | 2 <= c < MaxCluster(s.kind, n)
      ensures Entries(s.kind, Join(s.layout.Of(ss).fat1), n)[c] == if s.kind.Fat32? && c == 2 then Eof(Fat32) else 0
    {
      if s.kind.Fat16? { FreshTable16(n, c); } else { FreshTable32(n, c); }
    }
  }

  lemma PlanKind(total: nat)
    requires 1024 <= total < WORD
    ensures Plan(total).kind == (if total < FAT32_FROM then Fat16 else Fat32)
    ensures Plan(total).secPerCluster == ClusterSectors(total)
    ensures Plan(total).layout.fatLba > 0
    ensures Plan(total).rootCluster == (if total < FAT32_FROM then 0 else 2)
  {
  }

  lemma FreshData(s: Shape, ss: seq<Sector>)
    requires 1024 <= |ss| < WORD && s == Plan(|ss|) && s.layout.Fits(ss)
    ensures var data := Clusters(s.layout.Of(ss).data, s.secPerCluster);
      && |data| == 2 + Quot(|ss| - s.layout.dataLba, s.secPerCluster)
      && forall c | 2 <= c < |data| :: |data[c]| == s.secPerCluster * SECTOR
  {
    hide Quot, Plan, Chop;
    PlanKind(|ss|);
    var area := s.layout.Of(ss).data;
    ChopCount(area, s.secPerCluster);
    var data := Clusters(area, s.secPerCluster);
    forall c | 2 <= c < |data|
      ensures |data[c]| == s.secPerCluster * SECTOR
    {
      BlockSize(area, s.secPerCluster, c - 2);
    }
  }

  /** The slots of the root directory. */
  lemma FreshSlots(s: Shape, ss: seq<Sector>, hidden: u32, title: seq<byte>)
    requires 1024 <= |ss| < WORD && |title| == 11 && s == Plan(|ss|) && Formatted(ss, hidden, title)
    ensures var slots := StoreOf(s, ss).slots;
            |slots| == FreshRoom(|ss|) && forall i | 0 <= i < |slots| :: slots[i][0] == 0
  {
    hide Join, Entries, Image, Plan, Eof, FIRST16, FIRST32, BootOk, ZERO, ClusterSectors, Slots;
    PlanKind(|ss|);
    var n := if s.kind.Fat16? then ROOT16 else s.secPerCluster;
    var z: seq<Sector> := seq(n, _ => ZERO);
    ghost var slots := StoreOf(s, ss).slots;
    if s.kind.Fat32? {
      ChopAt(s.layout.Of(ss).data, s.secPerCluster, 0);
    }
    assert slots == Slots(Join(z));
    EmptySlots(n, 0);
    forall i | 0 <= i < |slots|
      ensures slots[i][0] == 0
    {
      EmptySlots(n, i);
    }
  }

  lemma FreshStore(s: Shape, ss: seq<Sector>, hidden: u32, title: seq<byte>)
    requires 1024 <= |ss| < WORD && |title| == 11 && s == Plan(|ss|) && Formatted(ss, hidden, title)
    ensures var t := StoreOf(s, ss);
            Empty(t) && |t.slots| == FreshRoom(|ss|) && t.Space() == FreshSpace(|ss|)
  {
    hide Join, Entries, Image, Plan, FIRST16, FIRST32, BootOk, ZERO, ClusterSectors, Slots, Quot, Clusters, FreeSet;
    PlanKind(|ss|);
    PlanFits(|ss|);
    TableSize(|ss|);
    FreshTable(s, ss, hidden, title);
    FreshData(s, ss);
    FreshSlots(s, ss, hidden, title);
    var t := StoreOf(s, ss);
    FreshLimits(s, |ss|, Quot(|ss| - s.layout.dataLba, s.secPerCluster));
    assert s.kind.Fat32? ==> t.fat[2] == t.Eof();
    assert Empty(t);
    EmptySpace(t);
  }

  /** Table entries, end mark and data clusters compared. */
  lemma FreshLimits(s: Shape, total: nat, clusters: nat)
    requires 1024 <= total < WORD && s == Plan(total) && clusters == Quot(total - s.layout.dataLba, s.secPerCluster)
    ensures var n := MaxCluster(s.kind, s.layout.fatSectors);
      && n >= 128
      && (s.kind.Fat16? ==> clusters + 2 <= n && clusters + 2 <= Eof(Fat16) && n == s.layout.fatSectors * 256)
      && (s.kind.Fat32? ==> n <= clusters + 2 && n <= Eof(Fat32) && n == s.layout.fatSectors * 128)
  {
    hide Quot, ClusterSectors, TableSectors;
    PlanFits(total);
    TableSize(total);
  }

  /** The boot sector of a fresh volume says what was planned. */
  lemma BootIsPlanned(ss: seq<Sector>, hidden: u32, title: seq<byte>)
    requires 16424 <= |ss| < WORD && |title| == 11 && Formatted(ss, hidden, title)
    ensures ShapeOf(ReadBpb(ss[0])) == Plan(|ss|) && Supported(ReadBpb(ss[0]), ss) && Plan(|ss|).layout.Fits(ss)
  {
    hide ReadBpb, ShapeOf, Plan, Le32, Image, ZERO, FIRST16, FIRST32, Layout.Fits, Layout.Of, ClusterSectors,
         TableSectors;
    var b := ss[0];
    var letters := Le32(b, 44);
    assert ReadBpb(b) == PlannedBpb(|ss|, letters);
    Classified(|ss|, letters);
    PlanKind(|ss|);
  }

  lemma SnapIs(fs: FileSystem, s: Shape, ss: seq<Sector>)
    requires 1024 <= |ss| < WORD && s == Plan(|ss|) && s.layout.Fits(ss) && fs.v.Valid() && fs.dir == 0
    requires s == Shape(fs.v.kind, fs.v.secPerCluster, fs.v.layout, fs.v.rootCluster)
    requires fs.v.table == s.layout.Of(ss).fat1 && fs.v.rootDir == Join(s.layout.Of(ss).root)
    requires fs.v.data == Clusters(s.layout.Of(ss).data, s.secPerCluster)
    requires fs.owners == if s.kind.Fat32? then map[2 := [2]] else map[]
    ensures fs.Snap() == StoreOf(s, ss)
    ensures StoreOf(s, ss).home == 0 || StoreOf(s, ss).home < |fs.v.data| ==> fs.v.IsDir(0)
  {
    hide Join, Entries, Plan, Slots, Clusters, FatVolume.Valid;
    PlanKind(|ss|);
  }

  lemma SameCopies(s: Shape, ss: seq<Sector>, hidden: u32, title: seq<byte>)
    requires 1024 <= |ss| < WORD && |title| == 11 && s == Plan(|ss|) && Formatted(ss, hidden, title)
    ensures s.layout.Fits(ss) && Differing(s.layout.Of(ss).fat1, s.layout.Of(ss).fat2) == {}
  {
    hide Image, Plan, FIRST16, FIRST32, BootOk, ZERO;
  }

  /** From 16424 sectors on, a formatted device mounts as an empty directory with every usable cluster free. */
  method FormatAndMount(disk: Disk, hidden: u32, title: seq<byte>) returns (fs: FileSystem)
    requires disk.reliable && 16424 <= |disk.sectors| < WORD && |title| == 11
    modifies disk
    ensures fresh(fs) && fresh(fs.v) && fs.v.disk == disk && |disk.sectors| == |old(disk.sectors)|
    ensures var s := Plan(|disk.sectors|);
            fs.v.kind == s.kind && fs.v.secPerCluster == s.secPerCluster && fs.v.layout == s.layout
    ensures fs.Valid() && fs.Visible() == FreshView(|disk.sectors|)
    ensures fs.v.stale == fs.v.differing == {} && fs.v.TableClean() && Bootable(fs.v)
    ensures fs.Tight() <==> fs.v.layout.fatSectors < 256 || fs.v.kind.Fat32?
  {
    hide Join, Entries, Image, Plan, FIRST16, FIRST32, ZERO, ClusterSectors, Slots, Quot, Clusters, FreeSet, ShapeOf,
         Formatted, FatVolume.Valid, Inv, Empty, ViewOf, HandlesOk, DataKept, ReadBpb, StoreOf, FreshRoom, FreshSpace,
         Differing, FatVolume.TableClean;
    var ok := FsFormat(disk, hidden, title);
    ghost var ss := disk.sectors;
    ghost var s := Plan(|ss|);
    BootIsPlanned(ss, hidden, title);
    var v := FsMount(disk);
    PlanKind(|ss|);
    fs := new FileSystem(v, 0, if v.kind.Fat32? then map[2 := [2]] else map[]);
    SnapIs(fs, s, ss);
    FreshStore(s, ss, hidden, title);
    EmptyIsDir(StoreOf(s, ss));
    FreshLimits(s, |ss|, Quot(|ss| - s.layout.dataLba, s.secPerCluster));
    EmptyInv(fs.Snap());
    EmptyView(fs.Snap(), fs.handles[..]);
    SameCopies(s, ss, hidden, title);
  }
}
