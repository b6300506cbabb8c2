/** The boot sector, mounting, and the geometry a fresh volume gets. */
module Mounting {
  import opened Bytes
  import opened Disks
  import opened FatCodec
  import opened FatVolumes

  const WORD := 0x1_0000_0000

  function Wrap(x: int): u32 { x % WORD }

  lemma WrapSmall(x: int)
    ensures 0 <= x < WORD ==> Wrap(x) == x
    ensures WORD <= x < 2 * WORD ==> Wrap(x) == x - WORD
  {
  }

  /** The fields of a boot sector that mounting looks at. */
  datatype Bpb = Bpb(bytesPerSec: nat, secPerCluster: nat, reserved: nat, numFats: nat, rootEntries: nat,
                     fatSectors: nat, totalSectors: nat, rootCluster: nat)

  function ReadBpb(b: Sector): Bpb {
    var total16: int, fat16: int := Le16(b, 19), Le16(b, 22);
    Bpb(Le16(b, 11), b[13], Le16(b, 14), b[16], Le16(b, 17),
        if fat16 != 0 then fat16 else Le32(b, 36),
        if total16 != 0 then total16 else Le32(b, 32),
        Le32(b, 44))
  }

  datatype Shape = Refused | Shape(kind: Kind, secPerCluster: nat, layout: Layout, rootCluster: nat)

  function RootSectors(b: Bpb): nat { (b.rootEntries * 32 + SECTOR - 1) / SECTOR }

  function KindOf(clusters: nat): Kind {
    if clusters < 4085 then Fat12 else if clusters < 65525 then Fat16 else Fat32
  }

  /** What mounting makes of a boot sector, in 32-bit arithmetic. A FAT32 volume has no fixed root. */
  function ShapeOf(b: Bpb): Shape {
    if b.bytesPerSec != SECTOR || b.fatSectors == 0 || b.secPerCluster == 0 then Refused
    else
      var fatLba := b.reserved;
      var rootLba := Wrap(fatLba + b.numFats * b.fatSectors);
      var dataLba := Wrap(rootLba + RootSectors(b));
      var kind := KindOf(Quot(Wrap(b.totalSectors - dataLba), b.secPerCluster));
      if kind.Fat12? && Wrap(b.fatSectors * SECTOR) > FAT12_SECTORS * SECTOR then Refused
      else if kind.Fat32? then
        if b.rootCluster < 2 then Refused
        else Shape(kind, b.secPerCluster, Layout(fatLba, b.fatSectors, rootLba, 0, rootLba), b.rootCluster)
      else if RootSectors(b) > ROOT_SECTORS_MAX then Refused
      else Shape(kind, b.secPerCluster, Layout(fatLba, b.fatSectors, rootLba, RootSectors(b), dataLba), 0)
  }

  /** The driver's own limits: two tables, clusters of at most 16 sectors, regions inside the device. */
  ghost predicate Supported(b: Bpb, disk: seq<Sector>) {
    ShapeOf(b).Shape? ==>
      && b.numFats == 2 && b.secPerCluster <= 16 && ShapeOf(b).layout.Fits(disk)
      && (ShapeOf(b).kind.Fat12? ==> b.fatSectors <= FAT12_SECTORS)
  }

  /** The boot sector the volume was mounted from describes it: mounting the device again finds the same volume. */
  ghost predicate Bootable(v: FatVolume) {
    && |v.boot| > 0 && v.layout.fatLba > 0
    && ShapeOf(ReadBpb(v.boot[0])) == Shape(v.kind, v.secPerCluster, v.layout, v.rootCluster)
    && ReadBpb(v.boot[0]).numFats == 2
  }

  /** Read the boot sector and, where the driver keeps them in memory, the table and the root. */
  method FsMount(disk: Disk) returns (v: FatVolume?)
    requires |disk.sectors| > 0 ==> Supported(ReadBpb(disk.sectors[0]), disk.sectors)
    ensures v != null ==>
      && |disk.sectors| > 0
      && var shape := ShapeOf(ReadBpb(disk.sectors[0]));
      && shape == Shape(v.kind, v.secPerCluster, v.layout, v.rootCluster) && v.disk == disk
      && v.layout.Fits(disk.sectors)
      && fresh(v) && v.Valid() && fresh(v.fat) && fresh(v.cbuf) && fresh(v.root)
      && v.table == v.layout.Of(disk.sectors).fat1 && v.rootDir == Join(v.layout.Of(disk.sectors).root)
      && v.data == Clusters(v.layout.Of(disk.sectors).data, v.secPerCluster)
      && v.stale == v.differing == Differing(v.layout.Of(disk.sectors).fat1, v.layout.Of(disk.sectors).fat2)
      && v.boot == disk.sectors[..v.layout.fatLba] && v.TableClean() && !v.rootDirty
      && (v.layout.fatLba > 0 ==> Bootable(v))
    ensures disk.reliable && v == null ==> |disk.sectors| == 0 || ShapeOf(ReadBpb(disk.sectors[0])).Refused?
  {
    hide Join, ReadBpb, Clusters, FatVolume.Valid, ShapeOf, Differing;
    var ok, boot := disk.Read(0, 1);
    if !ok {
      return null;
    }
    assert disk.sectors[0..1] == [disk.sectors[0]];
    OneSector(disk.sectors[0]);
    var shape := ShapeOf(ReadBpb(boot));
    if shape.Refused? {
      return null;
    }
    var l := shape.layout;
    ShapeBounds(ReadBpb(boot));
    var fat, root := [], [];
    if shape.kind.Fat12? {
      ok, fat := disk.Read(l.fatLba, l.fatSectors);
      if !ok {
        return null;
      }
    }
    if !shape.kind.Fat32? {
      ok, root := disk.Read(l.rootLba, l.rootSectors);
      if !ok {
        return null;
      }
    } else {
      NoSectors(disk.sectors, l.rootLba);
    }
    v := new FatVolume(disk, shape.kind, shape.secPerCluster, l, shape.rootCluster, fat, root);
  }

  lemma ShapeBounds(b: Bpb)
    ensures var s := ShapeOf(b);
      s.Shape? ==> s.layout.fatSectors > 0 && s.secPerCluster > 0 && s.layout.rootSectors <= ROOT_SECTORS_MAX
                   && s.layout.fatSectors == b.fatSectors && s.secPerCluster == b.secPerCluster
                   && (s.kind.Fat32? ==> s.layout.rootSectors == 0)
  {
  }

  /** A boot sector without wrap-around: the table copies follow the reserved sectors, then the root in the fewest
      sectors that hold its 32-byte entries, then the data; the kind goes by the number `n` of whole clusters there.
      Refused: sectors of another size, no table, no cluster size, a table or root too large for the driver, a FAT32
      root below cluster 2. */
  lemma ShapeByCount(b: Bpb, root: nat, n: nat)
    requires root * 512 >= b.rootEntries * 32 && (root > 0 ==> (root - 1) * 512 < b.rootEntries * 32)
    requires Whole(b.totalSectors - (b.reserved + b.numFats * b.fatSectors + root), b.secPerCluster, n)
    requires b.totalSectors < WORD && b.fatSectors * 512 < WORD
    ensures var at := b.reserved + b.numFats * b.fatSectors;
      ShapeOf(b)
      == if b.bytesPerSec != 512 || b.fatSectors == 0 then Refused
         else if n < 4085 then
           if b.fatSectors > 16 || root > 32 then Refused
           else Shape(Fat12, b.secPerCluster, Layout(b.reserved, b.fatSectors, at, root, at + root), 0)
         else if n < 65525 then
           if root > 32 then Refused
           else Shape(Fat16, b.secPerCluster, Layout(b.reserved, b.fatSectors, at, root, at + root), 0)
         else if b.rootCluster < 2 then Refused
         else Shape(Fat32, b.secPerCluster, Layout(b.reserved, b.fatSectors, at, 0, at), b.rootCluster)
  {
    hide Wrap, Quot, RootSectors, KindOf, Whole;
    var data := b.reserved + b.numFats * b.fatSectors + root;
    RootIs(b, root);
    CountIs(b.totalSectors - data, b.secPerCluster, n);
    WrapSmall(b.reserved + b.numFats * b.fatSectors);
    WrapSmall(data);
    WrapSmall(b.totalSectors - data);
    WrapSmall(b.fatSectors * 512);
    KindIs(n);
  }

  lemma RootIs(b: Bpb, root: nat)
    requires root * 512 >= b.rootEntries * 32 && (root > 0 ==> (root - 1) * 512 < b.rootEntries * 32)
    ensures RootSectors(b) == root
  {
  }

  /** `n` pieces of `per` sectors fit, and no more. */
  predicate Whole(sectors: int, per: nat, n: nat) { n * per <= sectors < (n + 1) * per }

  lemma CountIs(sectors: int, per: nat, n: nat)
    requires Whole(sectors, per, n)
    ensures per > 0 && sectors >= 0 && Quot(sectors, per) == n
  {
    DivModUnique(sectors, per, n, sectors - n * per);
  }

  lemma KindIs(n: nat)
    ensures KindOf(n) == if n < 4085 then Fat12 else if n < 65525 then Fat16 else Fat32
  {
  }

  lemma NoSectors(ss: seq<Sector>, at: nat)
    requires at <= |ss|
    ensures Join(ss[at..at]) == []
  {
  }
}
