/** A mounted FAT volume: the cached allocation table, the data clusters and the fixed root directory. */
module FatVolumes {
  import opened Bytes
  import opened Disks
  import opened FatCodec

  const FAT12_SECTORS := 16
  const ROOT_SECTORS_MAX := 32
  const NO_SECTOR := -1

  /** The four regions of a volume: both copies of the table, the fixed root, the data area. */
  datatype Regions = Regions(fat1: seq<Sector>, fat2: seq<Sector>, root: seq<Sector>, data: seq<Sector>)

  /** Where the regions lie. */
  datatype Layout = Layout(fatLba: nat, fatSectors: nat, rootLba: nat, rootSectors: nat, dataLba: nat) {
    ghost predicate Fits(disk: seq<Sector>) {
      fatLba + 2 * fatSectors <= rootLba && rootLba + rootSectors <= dataLba <= |disk|
    }

    ghost function Of(disk: seq<Sector>): Regions
      requires Fits(disk)
    {
      Regions(disk[fatLba..fatLba + fatSectors], disk[fatLba + fatSectors..fatLba + 2 * fatSectors],
              disk[rootLba..rootLba + rootSectors], disk[dataLba..])
    }
  }

  /** One sector of the first table, read from the disk. */
  lemma TableSector(l: Layout, disk: seq<Sector>, s: nat)
    requires l.Fits(disk) && s < l.fatSectors
    ensures l.fatLba + s + 1 <= |disk| && Join(disk[l.fatLba + s..l.fatLba + s + 1]) == l.Of(disk).fat1[s]
  {
    hide Join;
    var sec := l.Of(disk).fat1[s];
    assert disk[l.fatLba + s..l.fatLba + s + 1] == [sec];
    OneSector(sec);
  }

  /** Two stretches of a disk that a store hits and misses. */
  lemma Hit(disk: seq<Sector>, lo: nat, hi: nat, s: nat, ss: seq<Sector>)
    requires lo + s + |ss| <= hi <= |disk|
    ensures Splice(disk, lo + s, ss)[lo..hi] == Splice(disk[lo..hi], s, ss)
  {
    SpliceInside(disk, lo + s, ss, lo, hi);
    assert lo + s - lo == s;
  }

  lemma Missed(disk: seq<Sector>, at: nat, ss: seq<Sector>, lo: nat, hi: nat)
    requires at + |ss| <= |disk| && lo <= hi <= |disk| && (hi <= at || at + |ss| <= lo)
    ensures Splice(disk, at, ss)[lo..hi] == disk[lo..hi]
  {
    SpliceApart(disk, at, ss, lo, hi);
  }

  /** The regions of two disks of the same size agree where their stretches do. */
  lemma SameData(l: Layout, disk: seq<Sector>, after: seq<Sector>)
    requires l.Fits(disk) && |after| == |disk|
    ensures disk[l.dataLba..] == disk[l.dataLba..|disk|] && after[l.dataLba..] == after[l.dataLba..|disk|]
  {
  }

  /** A store inside one region changes that region alone. */
  lemma StoreFat1(l: Layout, disk: seq<Sector>, s: nat, ss: seq<Sector>)
    requires l.Fits(disk) && s + |ss| <= l.fatSectors
    ensures var after := Splice(disk, l.fatLba + s, ss);
            l.Fits(after) && l.Of(after) == l.Of(disk).(fat1 := Splice(l.Of(disk).fat1, s, ss))
    ensures Splice(disk, l.fatLba + s, ss)[..l.fatLba] == disk[..l.fatLba]
  {
    hide Splice;
    var m, at := l.fatLba + l.fatSectors, l.fatLba + s;
    Hit(disk, l.fatLba, m, s, ss);
    Missed(disk, at, ss, m, l.fatLba + 2 * l.fatSectors);
    Missed(disk, at, ss, l.rootLba, l.rootLba + l.rootSectors);
    Missed(disk, at, ss, l.dataLba, |disk|);
    Missed(disk, at, ss, 0, l.fatLba);
    SameData(l, disk, Splice(disk, at, ss));
  }

  lemma StoreFat2(l: Layout, disk: seq<Sector>, s: nat, ss: seq<Sector>)
    requires l.Fits(disk) && s + |ss| <= l.fatSectors
    ensures var after := Splice(disk, l.fatLba + l.fatSectors + s, ss);
            l.Fits(after) && l.Of(after) == l.Of(disk).(fat2 := Splice(l.Of(disk).fat2, s, ss))
    ensures Splice(disk, l.fatLba + l.fatSectors + s, ss)[..l.fatLba] == disk[..l.fatLba]
  {
    hide Splice;
    var m, at := l.fatLba + l.fatSectors, l.fatLba + l.fatSectors + s;
    Missed(disk, at, ss, l.fatLba, m);
    Hit(disk, m, l.fatLba + 2 * l.fatSectors, s, ss);
    Missed(disk, at, ss, l.rootLba, l.rootLba + l.rootSectors);
    Missed(disk, at, ss, l.dataLba, |disk|);
    Missed(disk, at, ss, 0, l.fatLba);
    SameData(l, disk, Splice(disk, at, ss));
  }

  lemma StoreRoot(l: Layout, disk: seq<Sector>, s: nat, ss: seq<Sector>)
    requires l.Fits(disk) && s + |ss| <= l.rootSectors
    ensures var after := Splice(disk, l.rootLba + s, ss);
            l.Fits(after) && l.Of(after) == l.Of(disk).(root := Splice(l.Of(disk).root, s, ss))
    ensures Splice(disk, l.rootLba + s, ss)[..l.fatLba] == disk[..l.fatLba]
  {
    hide Splice;
    var m, at := l.fatLba + l.fatSectors, l.rootLba + s;
    Missed(disk, at, ss, l.fatLba, m);
    Missed(disk, at, ss, m, l.fatLba + 2 * l.fatSectors);
    Hit(disk, l.rootLba, l.rootLba + l.rootSectors, s, ss);
    Missed(disk, at, ss, l.dataLba, |disk|);
    Missed(disk, at, ss, 0, l.fatLba);
    SameData(l, disk, Splice(disk, at, ss));
  }

  lemma StoreData(l: Layout, disk: seq<Sector>, s: nat, ss: seq<Sector>)
    requires l.Fits(disk) && l.dataLba + s + |ss| <= |disk|
    ensures var after := Splice(disk, l.dataLba + s, ss);
            l.Fits(after) && l.Of(after) == l.Of(disk).(data := Splice(l.Of(disk).data, s, ss))
    ensures Splice(disk, l.dataLba + s, ss)[..l.fatLba] == disk[..l.fatLba]
  {
    hide Splice;
    var m, at := l.fatLba + l.fatSectors, l.dataLba + s;
    Missed(disk, at, ss, l.fatLba, m);
    Missed(disk, at, ss, m, l.fatLba + 2 * l.fatSectors);
    Missed(disk, at, ss, l.rootLba, l.rootLba + l.rootSectors);
    Hit(disk, l.dataLba, |disk|, s, ss);
    Missed(disk, at, ss, 0, l.fatLba);
    SameData(l, disk, Splice(disk, at, ss));
  }

  class FatVolume {
    const disk: Disk
    const kind: Kind
    const secPerCluster: nat
    const layout: Layout
    const rootCluster: nat
    /** FAT12: the whole table. */
    const fat: array<byte>
    var fatDirty: bool
    /** FAT16/32: one cached sector. */
    const cbuf: array<byte>
    var csec: int
    var cdirty: bool
    /** Fixed root directory (FAT12/16). */
    const root: array<byte>
    var rootDirty: bool

    /** What the device holds, region by region. */
    ghost var parts: Regions
    /** The table the driver sees, wherever its sectors are; what the data clusters and the root hold. */
    ghost var table: seq<Sector>
    ghost var data: seq<seq<byte>>
    ghost var rootDir: seq<byte>
    /** Sectors in which the two FATs differ: those in which they differed when the volume was mounted, until they are
        written again, and those whose last mirror write was reported as failed (the driver ignores it). */
    ghost var stale: set<nat>
    ghost const differing: set<nat>
    /** What lies in front of the first FAT: the boot sector and other reserved sectors. */
    ghost const boot: seq<Sector>

    function ClusterBytes(): nat { secPerCluster * SECTOR }

    function Max(): nat { MaxCluster(kind, layout.fatSectors) }

    ghost predicate Geometry()
      reads this, disk
    {
      && layout.fatSectors > 0 && 1 <= secPerCluster <= 16
      && fat.Length == FAT12_SECTORS * SECTOR && cbuf.Length == SECTOR && root.Length == ROOT_SECTORS_MAX * SECTOR
      && fat != cbuf && fat != root && cbuf != root
      && (kind.Fat12? ==> layout.fatSectors <= FAT12_SECTORS)
      && layout.rootSectors <= ROOT_SECTORS_MAX
      && layout.Fits(disk.sectors) && parts == layout.Of(disk.sectors) && boot == disk.sectors[..layout.fatLba]
      && |table| == |parts.fat1| == |parts.fat2| == layout.fatSectors
    }

    ghost predicate TableOk()
      requires Geometry()
      reads this, disk, fat, cbuf
    {
      if kind.Fat12? then
        Join(table) == fat[..layout.fatSectors * SECTOR] && (!fatDirty ==> parts.fat1 == table)
      else
        CacheOk(parts.fat1, table, csec, cdirty, cbuf[..])
    }

    ghost predicate MirrorOk()
      requires Geometry()
      reads this, disk
    {
      && ((kind.Fat12? && fatDirty)
          || Mirrored(parts.fat1, parts.fat2, stale, if !kind.Fat12? && cdirty then csec else NO_SECTOR))
      && (disk.reliable ==> stale <= differing)
    }

    ghost predicate RootOk()
      requires Geometry()
      reads this, disk, root
    {
      rootDir == root[..layout.rootSectors * SECTOR] && (!rootDirty ==> Join(parts.root) == rootDir)
    }

    ghost predicate Valid()
      reads this, disk, fat, cbuf, root
      ensures Valid() ==> |table| == layout.fatSectors && 1 <= secPerCluster <= 16
    {
      Geometry() && TableOk() && MirrorOk() && RootOk() && data == Clusters(parts.data, secPerCluster)
    }

    /** Nothing of the table is waiting in memory. */
    ghost predicate TableClean()
      reads this
    {
      if kind.Fat12? then !fatDirty else !cdirty
    }

    /** The allocation table as the array of its entries. */
    ghost function Fat(): seq<nat>
      requires |table| == layout.fatSectors
      reads this
    {
      Entries(kind, Join(table), layout.fatSectors)
    }

    /** A volume as mounting leaves it: empty cache, FAT12 table and fixed root in memory. */
    constructor (disk: Disk, kind: Kind, secPerCluster: nat, layout: Layout, rootCluster: nat,
                 fatCopy: seq<byte>, rootCopy: seq<byte>)
      requires layout.fatSectors > 0 && 1 <= secPerCluster <= 16 && layout.rootSectors <= ROOT_SECTORS_MAX
      requires layout.Fits(disk.sectors)
      requires kind.Fat12? ==> layout.fatSectors <= FAT12_SECTORS && fatCopy == Join(layout.Of(disk.sectors).fat1)
      requires rootCopy == Join(layout.Of(disk.sectors).root)
      ensures Valid() && fresh(fat) && fresh(cbuf) && fresh(root)
      ensures this.disk == disk && this.kind == kind && this.secPerCluster == secPerCluster
      ensures this.layout == layout && this.rootCluster == rootCluster
      ensures parts == layout.Of(disk.sectors) && table == parts.fat1 && rootDir == rootCopy
      ensures data == Clusters(parts.data, secPerCluster)
      ensures stale == differing == Differing(parts.fat1, parts.fat2) && boot == disk.sectors[..layout.fatLba]
      ensures TableClean() && !rootDirty
    {
      hide Clusters, Cut, Join, Entries;
      this.disk, this.kind, this.secPerCluster, this.layout, this.rootCluster :=
        disk, kind, secPerCluster, layout, rootCluster;
      fat := new byte[FAT12_SECTORS * SECTOR](i => if 0 <= i < |fatCopy| then fatCopy[i] else 0);
      cbuf := new byte[SECTOR](_ => 0);
      root := new byte[ROOT_SECTORS_MAX * SECTOR](i => if 0 <= i < |rootCopy| then rootCopy[i] else 0);
      fatDirty, csec, cdirty, rootDirty := false, NO_SECTOR, false, false;
      parts := layout.Of(disk.sectors);
      table := layout.Of(disk.sectors).fat1;
      data := Clusters(layout.Of(disk.sectors).data, secPerCluster);
      rootDir := rootCopy;
      stale := Differing(layout.Of(disk.sectors).fat1, layout.Of(disk.sectors).fat2);
      differing := Differing(layout.Of(disk.sectors).fat1, layout.Of(disk.sectors).fat2);
      boot := disk.sectors[..layout.fatLba];
    }

    /** When nothing waits in memory the device holds it all, in both copies of the table if these were equal at
        mounting. */
    lemma Settled()
      requires Valid() && TableClean() && !rootDirty
      ensures parts == layout.Of(disk.sectors) && parts.fat1 == table && Join(parts.root) == rootDir
      ensures data == Clusters(parts.data, secPerCluster) && boot == disk.sectors[..layout.fatLba]
      ensures disk.reliable && differing == {} ==> parts.fat2 == table
    {
      hide CacheOk, Mirrored, Join, Clusters;
      FlushedTable(parts.fat1, table, csec, cbuf[..], parts.fat2, stale);
    }

    // ---- writes to the regions of the device ----

    method WriteFat(second: bool, s: nat, count: nat, buf: seq<byte>) returns (ok: bool, ghost landed: seq<Sector>)
      requires Geometry() && s + count <= layout.fatSectors && |buf| == count * SECTOR
      modifies `parts, disk
      ensures Geometry() && |landed| == count && (ok ==> landed == Cut(buf)) && (disk.reliable ==> ok)
      ensures parts == if second then old(parts).(fat2 := Splice(old(parts).fat2, s, landed))
                                 else old(parts).(fat1 := Splice(old(parts).fat1, s, landed))
    {
      hide CacheOk, Mirrored, Clusters, Splice;
      var first := if second then layout.fatLba + layout.fatSectors else layout.fatLba;
      ok, landed := disk.Write(first + s, count, buf);
      if second {
        StoreFat2(layout, old(disk.sectors), s, landed);
      } else {
        StoreFat1(layout, old(disk.sectors), s, landed);
      }
      parts := layout.Of(disk.sectors);
    }

    // ---- FAT16/32 single-sector cache ----

    method CacheFlush() returns (ok: bool)
      requires Valid() && !kind.Fat12?
      modifies `cdirty, `stale, `parts, disk
      ensures Valid() && table == old(table) && data == old(data) && rootDir == old(rootDir)
      ensures (ok <==> !cdirty) && (old(!cdirty) ==> ok)
      ensures disk.reliable ==> ok && stale <= old(stale) && (old(cdirty) && csec != NO_SECTOR ==> csec !in stale)
    {
      if !cdirty || csec == NO_SECTOR {
        return true;
      }
      OneSector(cbuf[..]);
      var ok1, landed := WriteFat(false, csec, 1, cbuf[..]);
      StoreOne(old(parts).fat1, csec, landed, cbuf[..]);
      if !ok1 {
        return false;
      }
      var ok2, mirror := WriteFat(true, csec, 1, cbuf[..]);
      StoreOne(old(parts).fat2, csec, mirror, cbuf[..]);
      cdirty := false;
      stale := if ok2 then stale - {csec as nat} else stale + {csec as nat};
      return true;
    }

    /** The cache takes `buf`, which is sector `sec` of the first table, or rubbish when `sec` is NO_SECTOR. */
    method FillCache(sec: int, buf: seq<byte>)
      requires Valid() && !kind.Fat12? && !cdirty && |buf| == SECTOR
      requires sec == NO_SECTOR || (0 <= sec < layout.fatSectors && buf == parts.fat1[sec])
      modifies `csec, cbuf
      ensures Valid() && csec == sec && cbuf[..] == buf
    {
      forall i | 0 <= i < SECTOR {
        cbuf[i] := buf[i];
      }
      assert cbuf[..] == buf;
      csec := sec;
    }

    method CacheLoad(sec: nat) returns (ok: bool)
      requires Valid() && !kind.Fat12? && sec < layout.fatSectors
      modifies `csec, `cdirty, `stale, `parts, disk, cbuf
      ensures Valid() && Kept()
      ensures ok ==> csec == sec && cbuf[..] == table[sec]
      ensures disk.reliable ==> ok
    {
      if csec == sec {
        return true;
      }
      ok := CacheFlush();
      if !ok {
        return;
      }
      TableSector(layout, disk.sectors, sec);
      var buf;
      ok, buf := disk.Read(layout.fatLba + sec, 1);
      FillCache(if ok then sec else NO_SECTOR, buf);
    }

    /** What a step that only moves cached sectors leaves alone; on a reliable disk no mirror goes stale. */
    twostate predicate Kept()
      reads this, disk
    {
      table == old(table) && data == old(data) && rootDir == old(rootDir)
      && (disk.reliable ==> stale <= old(stale)) && (old(TableClean()) ==> TableClean())
    }

    // ---- table entries ----

    method FatGet(c: nat) returns (v: nat)
      requires Valid() && c < Max()
      modifies `csec, `cdirty, `stale, `parts, disk, cbuf
      ensures Valid() && Kept()
      ensures v == Fat()[c] || (!disk.reliable && v == Radix(kind) - 1)
    {
      hide Mirrored, Clusters, Splice, Value, Entries, CacheOk;
      EntriesAt(kind, Join(table), layout.fatSectors, c);
      var w := EntryWidth(kind);
      if kind.Fat12? {
        var off := c + c / 2;
        ghost var t := fat[..layout.fatSectors * SECTOR];
        assert Join(table) == t;
        assert off + w <= |t| && t[off..off + w] == fat[off..off + w];
        return Value(kind, c % 2 == 1, fat[off..off + w]);
      }
      EntryInSector(kind, table, c);
      var ok := CacheLoad(EntryOffset(kind, c) / SECTOR);
      if !ok {
        return if kind.Fat16? then 0xFFFF else 0x0FFF_FFFF;
      }
      var off := EntryOffset(kind, c) % SECTOR;
      assert cbuf[off..off + w] == table[csec][off..off + w];
      v := Value(kind, c % 2 == 1, cbuf[off..off + w]);
    }

    method FatSet12(off: nat, odd: bool, val: nat)
      requires Valid() && kind.Fat12? && off + 2 <= layout.fatSectors * SECTOR
      modifies `fatDirty, `table, fat
      ensures Valid() && data == old(data) && rootDir == old(rootDir)
      ensures var t := Join(old(table));
              Join(table) == Splice(t, off, NewBytes(kind, odd, t[off..off + 2], val))
    {
      hide NewBytes;
      var n := layout.fatSectors * SECTOR;
      ghost var before := Join(table);
      assert fat[off..off + 2] == before[off..off + 2];
      var b := NewBytes(kind, odd, fat[off..off + 2], val);
      forall i | 0 <= i < 2 {
        fat[off + i] := b[i];
      }
      fatDirty := true;
      assert fat[..n] == Splice(before, off, b);
      JoinCut(fat[..n]);
      table := Cut(fat[..n]);
    }

    /** Store the `w` bytes of an entry at offset `off` of the cached sector. */
    method CachedSet(off: nat, odd: bool, val: nat)
      requires Valid() && !kind.Fat12? && csec != NO_SECTOR && off + EntryWidth(kind) <= SECTOR
      modifies `cdirty, `table, cbuf
      ensures Valid() && data == old(data) && rootDir == old(rootDir)
      ensures var s := old(table)[csec];
              table == old(table)[csec := Splice(s, off, NewBytes(kind, odd, s[off..off + EntryWidth(kind)], val))]
    {
      var w := EntryWidth(kind);
      ghost var before := cbuf[..];
      assert before == table[csec];
      var b := NewBytes(kind, odd, cbuf[off..off + w], val);
      forall i | 0 <= i < w {
        cbuf[off + i] := b[i];
      }
      assert cbuf[..] == Splice(before, off, b);
      table := table[csec := Splice(before, off, b)];
      cdirty := true;
    }

    /** On an unreliable disk the sector may fail to load, and the store is then dropped. */
    method FatSet(c: nat, val: nat)
      requires Valid() && c < Max()
      modifies `csec, `cdirty, `stale, `parts, `fatDirty, `table, disk, cbuf, fat
      ensures Valid() && data == old(data) && rootDir == old(rootDir) && (disk.reliable ==> stale <= old(stale))
      ensures EntryOffset(kind, c) + EntryWidth(kind) <= |Join(old(table))|
      ensures Join(table) == PutEntry(kind, Join(old(table)), c, val) || (!disk.reliable && table == old(table))
      ensures Fat() == old(Fat())[c := val % Radix(kind)] || (!disk.reliable && table == old(table))
    {
      hide NewBytes, Entries, CacheOk, Mirrored, Clusters, Splice;
      EntriesAfterPut(kind, Join(table), layout.fatSectors, c, val);
      if kind.Fat12? {
        FatSet12(c + c / 2, c % 2 == 1, val);
        return;
      }
      EntryInSector(kind, table, c);
      var ok := CacheLoad(EntryOffset(kind, c) / SECTOR);
      if !ok {
        return;
      }
      StoreEntry(kind, table, c, val);
      CachedSet(EntryOffset(kind, c) % SECTOR, c % 2 == 1, val);
    }

    /** Write the table back: the first copy, then its mirror, whose failure is ignored. */
    method FlushFat() returns (ok: bool)
      requires Valid()
      modifies `cdirty, `fatDirty, `stale, `parts, disk
      ensures Valid() && Kept()
      ensures ok ==> TableClean() && parts.fat1 == table && Mirrored(parts.fat1, parts.fat2, stale, NO_SECTOR)
      ensures disk.reliable ==> ok
      ensures disk.reliable && (old(stale) == {} || (kind.Fat12? && old(fatDirty))) ==>
        parts.fat1 == parts.fat2 == table
    {
      hide CacheOk, Mirrored, Splice, Cut, Join, Clusters, Entries;
      if !kind.Fat12? {
        ok := CacheFlush();
      } else if !fatDirty {
        ok := true;
      } else {
        ok := FlushTable();
      }
      FlushedTable(parts.fat1, table, csec, cbuf[..], parts.fat2, stale);
    }

    /** The whole FAT12 table, to both places. */
    method FlushTable() returns (ok: bool)
      requires Valid() && kind.Fat12? && fatDirty
      modifies `fatDirty, `stale, `parts, disk
      ensures Valid() && table == old(table) && data == old(data) && rootDir == old(rootDir)
      ensures (ok <==> !fatDirty) && (disk.reliable ==> ok && stale == {})
    {
      hide Splice, Cut, Join, Clusters, Entries;
      var n := layout.fatSectors;
      ghost var landed, mirror;
      CutJoin(table);
      ok, landed := WriteFat(false, 0, n, fat[..n * SECTOR]);
      SpliceWhole(old(parts).fat1, landed);
      if !ok {
        return;
      }
      var mirrored;
      mirrored, mirror := WriteFat(true, 0, n, fat[..n * SECTOR]);
      SpliceWhole(old(parts).fat2, mirror);
      fatDirty := false;
      stale := if mirrored then {} else UpTo(n);
    }

    // ---- data clusters ----

    method ReadCluster(c: nat) returns (ok: bool, buf: seq<byte>)
      requires Valid() && c >= 2
      ensures |buf| == ClusterBytes()
      ensures ok ==> c < |data| && buf == data[c]
      ensures disk.reliable && c < |data| ==> ok
    {
      hide CacheOk, Mirrored, Join, Chop, BlockStart;
      ChopAt(parts.data, secPerCluster, c - 2);
      BlockStartIsProduct(c - 2, secPerCluster);
      ghost var o := BlockStart(c - 2, secPerCluster);
      ok, buf := disk.Read(layout.dataLba + (c - 2) * secPerCluster, secPerCluster);
      if o + secPerCluster <= |parts.data| {
        DataSlice(disk.sectors, layout, o, secPerCluster);
      }
    }

    method WriteData(o: nat, buf: seq<byte>) returns (ok: bool, ghost landed: seq<Sector>)
      requires Geometry() && |buf| == ClusterBytes()
      modifies `parts, disk
      ensures Geometry() && |landed| == secPerCluster && (ok ==> landed == Cut(buf))
      ensures o + secPerCluster > |old(parts).data| ==> !ok && parts == old(parts)
      ensures o + secPerCluster <= |old(parts).data| ==>
        parts == old(parts).(data := Splice(old(parts).data, o, landed)) && (disk.reliable ==> ok)
    {
      hide CacheOk, Mirrored, Clusters, Splice;
      ok, landed := disk.Write(layout.dataLba + o, secPerCluster, buf);
      if layout.dataLba + o + secPerCluster <= |disk.sectors| {
        StoreData(layout, old(disk.sectors), o, landed);
        parts := layout.Of(disk.sectors);
      }
    }

    method WriteCluster(c: nat, buf: seq<byte>) returns (ok: bool)
      requires Valid() && c >= 2 && |buf| == ClusterBytes()
      modifies `parts, `data, disk
      ensures Valid() && |data| == |old(data)|
      ensures c >= |data| ==> !ok && data == old(data)
      ensures c < |data| ==> data == old(data)[c := data[c]] && |data[c]| == |buf| && (ok ==> data[c] == buf)
      ensures disk.reliable && c < |data| ==> ok
    {
      hide CacheOk, Mirrored, Splice, Clusters, Cut, Join, Entries;
      ClusterAt(parts.data, secPerCluster, c);
      ghost var landed;
      ok, landed := WriteData((c - 2) * secPerCluster, buf);
      assert TableOk() && MirrorOk() && RootOk();
      if c < |data| {
        ClusterStore(old(parts).data, secPerCluster, c, landed);
        data := data[c := Join(landed)];
        JoinCut(buf);
      }
    }

    // ---- directories ----

    method FlushRoot() returns (ok: bool)
      requires Valid()
      modifies `rootDirty, `parts, disk
      ensures Valid() && (disk.reliable ==> ok && !rootDirty)
    {
      hide CacheOk, Mirrored, Splice, Clusters;
      if !rootDirty {
        return true;
      }
      var n := layout.rootSectors;
      ghost var landed;
      ok, landed := disk.Write(layout.rootLba, n, root[..n * SECTOR]);
      StoreRoot(layout, old(disk.sectors), 0, landed);
      SpliceWhole(parts.root, landed);
      parts := layout.Of(disk.sectors);
      JoinCut(rootDir);
      rootDirty := !ok;
    }

    /** Directory 0 is the fixed root, or the root cluster of a FAT32 volume. */
    function DirCluster(d: nat): nat {
      if d == 0 && kind.Fat32? then rootCluster else d
    }

    /** The bytes the driver looks at in directory `d`: the fixed root or the first cluster. */
    ghost function DirBytes(d: nat): seq<byte>
      reads this
    {
      if DirCluster(d) == 0 then rootDir else if DirCluster(d) < |data| then data[DirCluster(d)] else []
    }

    ghost predicate IsDir(d: nat)
      reads this
    {
      (d == 0 && !kind.Fat32?) || 2 <= DirCluster(d) < |data|
    }

    method LoadDir(d: nat) returns (ok: bool, buf: seq<byte>)
      requires Valid() && IsDir(d)
      ensures ok ==> buf == DirBytes(d)
      ensures disk.reliable ==> ok
    {
      if d == 0 && !kind.Fat32? {
        return true, root[..layout.rootSectors * SECTOR];
      }
      ok, buf := ReadCluster(DirCluster(d));
    }

    /** The caller has edited the buffer of directory `d`; for the fixed root that buffer is the root itself. */
    method StoreDir(d: nat, buf: seq<byte>) returns (ok: bool)
      requires Valid() && IsDir(d) && |buf| == |DirBytes(d)|
      modifies `rootDirty, `parts, `data, `rootDir, root, disk
      ensures Valid()
      ensures d == 0 && !kind.Fat32? ==> rootDir == buf && data == old(data)
      ensures !(d == 0 && !kind.Fat32?) ==>
        var c := DirCluster(d);
        rootDir == old(rootDir) && |data| == |old(data)| && data == old(data)[c := data[c]] && (ok ==> data[c] == buf)
      ensures disk.reliable ==> ok && (!old(rootDirty) ==> !rootDirty)
    {
      if d == 0 && !kind.Fat32? {
        SetRoot(buf);
        ok := FlushRoot();
        return;
      }
      BlockSize(parts.data, secPerCluster, DirCluster(d) - 2);
      ok := WriteCluster(DirCluster(d), buf);
    }

    method SetRoot(buf: seq<byte>)
      requires Valid() && |buf| == |rootDir|
      modifies `rootDirty, `rootDir, root
      ensures Valid() && rootDir == buf
    {
      hide CacheOk, Mirrored, Clusters;
      forall i | 0 <= i < |buf| {
        root[i] := buf[i];
      }
      rootDir := buf;
      rootDirty := true;
      assert cbuf[..] == old(cbuf[..]) && fat[..] == old(fat[..]) && root[..|buf|] == buf;
    }
  }

  /** A 16- or 32-bit entry lies inside one sector of the table. */
  lemma EntryInSector(kind: Kind, table: seq<Sector>, c: nat)
    requires !kind.Fat12? && c < MaxCluster(kind, |table|)
    ensures var o, w := EntryOffset(kind, c), EntryWidth(kind);
            var sec, off := o / SECTOR, o % SECTOR;
            && sec < |table| && off + w <= SECTOR && o + w <= |table| * SECTOR
            && Join(table)[o..o + w] == table[sec][off..off + w]
  {
    hide Join, MaxCluster;
    EntryInBounds(kind, |table|, c);
    SliceInSector(table, EntryOffset(kind, c), EntryWidth(kind));
  }

  lemma SliceInSector(table: seq<Sector>, o: nat, w: nat)
    requires o / SECTOR < |table| && o % SECTOR + w <= SECTOR && o + w <= |table| * SECTOR
    ensures Join(table)[o..o + w] == table[o / SECTOR][o % SECTOR..o % SECTOR + w]
  {
    hide Join;
    var sec, at := table[o / SECTOR], o % SECTOR;
    var a, b := Join(table)[o..o + w], sec[at..at + w];
    forall k | 0 <= k < w
      ensures a[k] == b[k]
    {
      JoinIndex(table, o, k);
      assert a[k] == Join(table)[o + k] && b[k] == sec[at + k];
    }
  }

  /** Storing an entry's bytes in its sector stores the entry in the table. */
  lemma StoreEntry(kind: Kind, table: seq<Sector>, c: nat, val: nat)
    requires !kind.Fat12? && c < MaxCluster(kind, |table|)
    ensures var o := EntryOffset(kind, c);
            var sec, off := o / SECTOR, o % SECTOR;
            && sec < |table| && off + EntryWidth(kind) <= SECTOR && o + EntryWidth(kind) <= |table| * SECTOR
            && var b := NewBytes(kind, c % 2 == 1, table[sec][off..off + EntryWidth(kind)], val);
               Join(table[sec := Splice(table[sec], off, b)]) == PutEntry(kind, Join(table), c, val)
  {
    EntryInSector(kind, table, c);
    var o := EntryOffset(kind, c);
    JoinStore(table, o / SECTOR, o % SECTOR, EntryBytes(kind, Join(table), c, val));
  }

  /** The cached sector `buf` hides sector `csec` of the copy on the device; only a dirty one differs from it. */
  ghost predicate CacheOk(fat1: seq<Sector>, table: seq<Sector>, csec: int, cdirty: bool, buf: seq<byte>)
    requires |fat1| == |table| && |buf| == SECTOR
  {
    && (cdirty ==> csec != NO_SECTOR)
    && (!cdirty ==> fat1 == table)
    && (csec != NO_SECTOR ==> 0 <= csec < |table| && table == fat1[csec := buf])
  }

  /** Both copies of the table agree except at stale sectors and at the one still to be written. */
  ghost predicate Mirrored(fat1: seq<Sector>, fat2: seq<Sector>, stale: set<nat>, pending: int)
    requires |fat1| == |fat2|
  {
    forall s | 0 <= s < |fat1| && s !in stale && s != pending :: fat2[s] == fat1[s]
  }

  lemma StoreOne(region: seq<Sector>, s: nat, landed: seq<Sector>, buf: Sector)
    requires |landed| == 1 && s < |region|
    ensures Splice(region, s, landed) == region[s := landed[0]]
    ensures region[s := landed[0]][s := buf] == region[s := buf]
  {
  }

  /** With nothing left to write, the first copy is the table; so is the second one, if no sector is stale. */
  lemma FlushedTable(fat1: seq<Sector>, table: seq<Sector>, csec: int, buf: Sector, fat2: seq<Sector>, stale: set<nat>)
    requires |fat1| == |table| == |fat2|
    ensures CacheOk(fat1, table, csec, false, buf) ==> fat1 == table
    ensures stale == {} && Mirrored(fat1, fat2, stale, NO_SECTOR) ==> fat1 == fat2
  {
  }

  /** The sectors in which two copies of a table differ. */
  ghost function Differing(fat1: seq<Sector>, fat2: seq<Sector>): set<nat>
    requires |fat1| == |fat2|
  {
    set s: nat | s < |fat1| && fat1[s] != fat2[s]
  }

  ghost function UpTo(n: nat): (s: set<nat>)
    ensures forall k: nat :: k in s <==> k < n
  {
    if n == 0 then {} else UpTo(n - 1) + {n - 1}
  }

  /** The clusters of a data area: numbers 0 and 1 do not exist, a trailing partial block is no cluster. */
  ghost function Clusters(area: seq<Sector>, size: nat): seq<seq<byte>>
    requires size > 0
  {
    [[], []] + Chop(area, size)
  }

  ghost function Chop(area: seq<Sector>, size: nat): seq<seq<byte>>
    requires size > 0
  {
    if |area| < size then [] else [Join(area[..size])] + Chop(area[size..], size)
  }

  /** First sector of block `k`. */
  ghost function BlockStart(k: nat, size: nat): nat {
    if k == 0 then 0 else size + BlockStart(k - 1, size)
  }

  lemma {:induction false} BlockStartIsProduct(k: nat, size: nat)
    ensures BlockStart(k, size) == k * size
  {
    if k > 0 {
      BlockStartIsProduct(k - 1, size);
    }
  }

  lemma SliceOfRest(area: seq<Sector>, from: nat, p: nat, n: nat)
    requires from + p + n <= |area|
    ensures area[from..][p..p + n] == area[from + p..from + p + n]
  {
  }

  /** Block `k` of a chopped area. */
  lemma {:induction false} ChopAt(area: seq<Sector>, size: nat, k: nat)
    requires size > 0
    ensures var o := BlockStart(k, size);
            && (k < |Chop(area, size)| <==> o + size <= |area|)
            && (k < |Chop(area, size)| ==> Chop(area, size)[k] == Join(area[o..o + size]))
  {
    hide Join;
    if |area| >= size && k > 0 {
      var p, rest := BlockStart(k - 1, size), area[size..];
      ChopAt(rest, size, k - 1);
      assert k < |Chop(area, size)| ==> Chop(area, size)[k] == Chop(rest, size)[k - 1];
      if p + size + size <= |area| {
        SliceOfRest(area, size, p, size);
      }
    }
  }

  lemma BlockSize(area: seq<Sector>, size: nat, k: nat)
    requires size > 0 && k < |Chop(area, size)|
    ensures |Chop(area, size)[k]| == size * SECTOR
  {
    ChopAt(area, size, k);
  }

  lemma {:induction false} ChopStore(area: seq<Sector>, size: nat, k: nat, ss: seq<Sector>)
    requires size > 0 && |ss| == size && BlockStart(k, size) + size <= |area|
    ensures k < |Chop(area, size)|
    ensures Chop(Splice(area, BlockStart(k, size), ss), size) == Chop(area, size)[k := Join(ss)]
  {
    hide Splice, Join;
    var at, n := BlockStart(k, size), |area|;
    var r := Splice(area, at, ss);
    assert r[size..] == r[size..n] && area[size..] == area[size..n];
    if k == 0 {
      SpliceInside(area, at, ss, 0, size);
      SpliceApart(area, at, ss, size, n);
    } else {
      ChopStore(area[size..], size, k - 1, ss);
      SpliceApart(area, at, ss, 0, size);
      SpliceInside(area, at, ss, size, n);
    }
  }

  lemma ClusterAt(area: seq<Sector>, size: nat, c: nat)
    requires size > 0 && c >= 2
    ensures var o, cs := (c - 2) * size, Clusters(area, size);
            (c < |cs| <==> o + size <= |area|) && (c < |cs| ==> cs[c] == Join(area[o..o + size]))
  {
    ChopAt(area, size, c - 2);
    BlockStartIsProduct(c - 2, size);
  }

  lemma ClusterStore(area: seq<Sector>, size: nat, c: nat, ss: seq<Sector>)
    requires size > 0 && c >= 2 && |ss| == size && (c - 2) * size + size <= |area|
    ensures var o, cs := (c - 2) * size, Clusters(area, size);
            c < |cs| && Clusters(Splice(area, o, ss), size) == cs[c := Join(ss)]
  {
    hide Splice, Join;
    BlockStartIsProduct(c - 2, size);
    ChopStore(area, size, c - 2, ss);
  }

  lemma DataSlice(disk: seq<Sector>, l: Layout, o: nat, n: nat)
    requires l.Fits(disk) && l.dataLba + o + n <= |disk|
    ensures disk[l.dataLba + o..l.dataLba + o + n] == l.Of(disk).data[o..o + n]
  {
  }

  lemma SpliceWhole(region: seq<Sector>, ss: seq<Sector>)
    requires |ss| == |region|
    ensures Splice(region, 0, ss) == ss
  {
  }
}
