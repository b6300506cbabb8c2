/** Mounting a device again: what it shows is what the driver showed when everything had been written back. */
module Remounts {
  import opened Bytes
  import opened Disks
  import opened FatCodec
  import opened FatVolumes
  import opened Directory
  import opened Stores
  import opened DirSteps
  import opened Sessions
  import opened FsModel
  import opened FileSystems
  import opened Mounting
  import opened Runs

  /** What lies on the device: the boot sector still describes a volume of this shape. */
  lemma StillSupported(v: FatVolume)
    requires v.Valid() && Bootable(v)
    ensures |v.disk.sectors| > 0 && Supported(ReadBpb(v.disk.sectors[0]), v.disk.sectors)
    ensures ShapeOf(ReadBpb(v.disk.sectors[0])) == Shape(v.kind, v.secPerCluster, v.layout, v.rootCluster)
  {
    hide ReadBpb, ShapeOf;
    var b := v.disk.sectors[0];
    assert b == v.boot[0];
    ShapeBounds(ReadBpb(b));
  }

  /** Two volumes of one shape with the same table, clusters and root are the same store. */
  lemma SameStore(fs: FileSystem, gs: FileSystem)
    requires fs.v.Valid() && gs.v.Valid() && gs.dir == fs.dir && gs.owners == fs.owners
    requires gs.v.kind == fs.v.kind && gs.v.secPerCluster == fs.v.secPerCluster && gs.v.layout == fs.v.layout
    requires gs.v.rootCluster == fs.v.rootCluster
    requires gs.v.table == fs.v.table && gs.v.data == fs.v.data && gs.v.rootDir == fs.v.rootDir
    ensures gs.Snap() == fs.Snap() && (fs.v.IsDir(fs.dir) <==> gs.v.IsDir(gs.dir))
  {
    hide FatVolume.Valid, Entries, Slots, Join;
  }

  lemma AllClosed(s: Store, hs: seq<Handle>, gs: seq<Handle>)
    requires Inv(s) && |gs| == MAX_HANDLES && forall i | 0 <= i < |gs| :: !gs[i].inUse
    ensures HandlesOk(s, gs) && ViewOf(s, gs) == ViewOf(s, hs).(handles := seq(MAX_HANDLES, _ => Closed))
  {
    hide Inv, Files, Subdirs, FreeSlots, Store.Space;
    assert ViewOf(s, gs).handles == seq(MAX_HANDLES, _ => Closed);
  }

  method MountAgain(v: FatVolume) returns (w: FatVolume)
    requires v.Valid() && v.disk.reliable && Bootable(v) && v.TableClean() && !v.rootDirty
    ensures fresh(w) && fresh(w.fat) && fresh(w.cbuf) && fresh(w.root) && w.Valid() && w.disk == v.disk && !w.rootDirty
    ensures w.kind == v.kind && w.secPerCluster == v.secPerCluster && w.layout == v.layout
    ensures w.rootCluster == v.rootCluster
    ensures w.table == v.table && w.data == v.data && w.rootDir == v.rootDir
  {
    hide FatVolume.Valid, FatVolume.TableClean, Bootable, Join, Clusters, Differing, ReadBpb, ShapeOf, Supported,
         Layout.Of;
    StillSupported(v);
    v.Settled();
    w := FsMount(v.disk);
  }

  /** When the table has been written back, mounting the device again shows the same directory, with no file open. */
  method Remount(fs: FileSystem) returns (gs: FileSystem)
    requires fs.Valid() && Bootable(fs.v) && fs.v.TableClean()
    ensures fresh(gs) && fresh(gs.v) && gs.v.disk == fs.v.disk && gs.dir == fs.dir
    ensures gs.Valid() && gs.Snap() == old(fs.Snap())
    ensures gs.Visible() == old(fs.Visible()).(handles := seq(MAX_HANDLES, _ => Closed))
  {
    hide FatVolume.Valid, FatVolume.TableClean, FatVolume.IsDir, FileSystem.Snap, Bootable, Inv, Entries, HandlesOk,
         ViewOf;
    ghost var s, hs := fs.Snap(), fs.handles[..];
    var v := MountAgain(fs.v);
    gs := new FileSystem(v, fs.dir, fs.owners);
    SameStore(fs, gs);
    AllClosed(s, hs, gs.handles[..]);
  }

  /** A legal run at whose end the table has been written back: mounting the device again shows exactly the files and
      subdirectories that the abstract file system ends with. */
  method RunAndRemount(fs: FileSystem, ops: seq<Op>) returns (replies: seq<Reply>, gs: FileSystem)
    requires fs.Valid() && Bootable(fs.v) && LegalRun(fs.Tight(), fs.v.ClusterBytes(), fs.Visible(), ops)
    requires SavedAll(fs.v.ClusterBytes(), fs.Visible(), ops, fs.v.TableClean())
    modifies fs.handles, fs.v, fs.v.disk, fs.v.cbuf, fs.v.fat, fs.v.root, fs`owners
    ensures gs.Valid() && gs.v.disk == fs.v.disk
    ensures var (b, rs) := StepAll(fs.v.ClusterBytes(), old(fs.Visible()), ops);
            replies == rs && gs.Visible() == b.(handles := seq(MAX_HANDLES, _ => Closed))
  {
    hide FileSystem.Valid, FileSystem.Visible, Step, StepAll, Bootable, SavedAll, LegalRun, OthersKept,
         FatVolume.TableClean;
    replies := Run(fs, ops);
    gs := Remount(fs);
  }
}
