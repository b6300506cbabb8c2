/** Whole runs of calls: the driver against the abstract file system, and what a run as a whole guarantees. */
module Runs {
  import opened Bytes
  import opened Directory
  import opened FatVolumes
  import opened Chains
  import opened Stores
  import opened DirSteps
  import opened Sessions
  import opened FsModel
  import opened FileSystems
  import FM = FileModel

  ghost function StepAll(cs: nat, a: View, ops: seq<Op>): (View, seq<Reply>)
    requires cs > 0
    decreases |ops|
  {
    if ops == [] then (a, [])
    else
      var (b, r) := Step(cs, a, ops[0]);
      var (c, rs) := StepAll(cs, b, ops[1..]);
      (c, [r] + rs)
  }

  ghost predicate LegalRun(tight: bool, cs: nat, a: View, ops: seq<Op>)
    requires cs > 0
    decreases |ops|
  {
    ops == [] || (Legal(tight, a, ops[0]) && LegalRun(tight, cs, Step(cs, a, ops[0]).0, ops[1..]))
  }

  /** The run of `ops` from `a` has given `replies` and goes on with `rest` from `b`. */
  ghost predicate Continues(cs: nat, a: View, ops: seq<Op>, replies: seq<Reply>, b: View, rest: seq<Op>)
    requires cs > 0
  {
    StepAll(cs, a, ops) == (StepAll(cs, b, rest).0, replies + StepAll(cs, b, rest).1)
  }

  lemma ContinuesFirst(cs: nat, a: View, ops: seq<Op>)
    requires cs > 0
    ensures Continues(cs, a, ops, [], a, ops)
  {
    hide StepAll;
    assert [] + StepAll(cs, a, ops).1 == StepAll(cs, a, ops).1;
  }

  lemma ContinuesLast(cs: nat, a: View, ops: seq<Op>, replies: seq<Reply>, b: View)
    requires cs > 0 && Continues(cs, a, ops, replies, b, [])
    ensures StepAll(cs, a, ops) == (b, replies)
  {
    assert replies + [] == replies;
  }

  lemma ContinuesOn(cs: nat, a: View, ops: seq<Op>, replies: seq<Reply>, b: View, rest: seq<Op>)
    requires cs > 0 && Continues(cs, a, ops, replies, b, rest) && rest != []
    ensures var (c, r) := Step(cs, b, rest[0]); Continues(cs, a, ops, replies + [r], c, rest[1..])
  {
    hide Step;
    var (c, r) := Step(cs, b, rest[0]);
    assert replies + ([r] + StepAll(cs, c, rest[1..]).1) == replies + [r] + StepAll(cs, c, rest[1..]).1;
  }

  // ---- what is on the device ----

  /** Whether the table on the device is up to date after a call: a call that ends well by writing the table back
      brings it up to date; mkdir that loses a cluster leaves it behind, all else leaves it as it was. */
  ghost predicate Saved(a: View, b: View, op: Op, reply: Reply, was: bool) {
    if reply == Code(-1) then was && b.space == a.space
    else was || op.Write? || op.Unlink? || op.Mkdir? || op.Rmdir?
  }

  ghost predicate SavedAll(cs: nat, a: View, ops: seq<Op>, was: bool)
    requires cs > 0
    decreases |ops|
  {
    if ops == [] then was
    else
      var (b, r) := Step(cs, a, ops[0]);
      SavedAll(cs, b, ops[1..], Saved(a, b, ops[0], r, was))
  }

  /** A run in which no mkdir loses a cluster leaves the device up to date. */
  lemma {:induction false} NothingLost(cs: nat, a: View, ops: seq<Op>)
    requires cs > 0 && LosesNothing(cs, a, ops)
    ensures SavedAll(cs, a, ops, true)
    decreases |ops|
  {
    hide Step;
    if ops != [] {
      NothingLost(cs, Step(cs, a, ops[0]).0, ops[1..]);
    }
  }

  /** No mkdir of the run fails with free entries left: neither for want of a slot nor for want of clusters on the
      device. */
  ghost predicate LosesNothing(cs: nat, a: View, ops: seq<Op>)
    requires cs > 0
    decreases |ops|
  {
    ops == [] ||
    (var (b, r) := Step(cs, a, ops[0]); (r == Code(-1) ==> b.space == a.space) && LosesNothing(cs, b, ops[1..]))
  }

  method RunOne(fs: FileSystem, op: Op) returns (reply: Reply)
    requires fs.Valid() && Legal(fs.Tight(), fs.Visible(), op)
    modifies fs.handles, fs.v, fs.v.disk, fs.v.cbuf, fs.v.fat, fs.v.root, fs`owners
    ensures fs.Valid() && Step(fs.v.ClusterBytes(), old(fs.Visible()), op) == (fs.Visible(), reply)
    ensures OthersKept(old(fs.Snap()), fs.Snap())
    ensures Saved(old(fs.Visible()), fs.Visible(), op, reply, old(fs.v.TableClean())) ==> fs.v.TableClean()
  {
    hide FileSystem.Visible, Step, OthersKept, FatVolume.TableClean, Inv, HandlesOk, FatVolume.Valid;
    var code;
    match op
    case Create(n) =>
      code := fs.FsCreate(n);
      reply := Code(code);
    case Open(n) =>
      code := fs.FsOpen(n);
      reply := Code(code);
    case Read(h, n) =>
      var out;
      code, out := fs.FsRead(h, n);
      reply := if code == -1 then Code(-1) else Data(out);
    case Write(h, buf) =>
      code := fs.FsWrite(h, buf);
      reply := Code(code);
    case Close(h) =>
      code := fs.FsClose(h);
      reply := Code(code);
    case Unlink(n) =>
      code := fs.FsUnlink(n);
      reply := Code(code);
    case Rename(from, to) =>
      code := fs.FsRename(from, to);
      reply := Code(code);
    case Mkdir(n) =>
      code := fs.FsMkdir(n);
      reply := Code(code);
    case Rmdir(n) =>
      code := fs.FsRmdir(n);
      reply := Code(code);
  }

  lemma SavedWeaker(a: View, b: View, op: Op, reply: Reply, was: bool, clean: bool)
    requires was ==> clean
    ensures Saved(a, b, op, reply, was) ==> Saved(a, b, op, reply, clean)
  {
  }

  /** Any legal run of calls answers exactly as the abstract file system does, and ends in its state; files of other
      directories keep their chains and their bytes. */
  method Run(fs: FileSystem, ops: seq<Op>) returns (replies: seq<Reply>)
    requires fs.Valid() && LegalRun(fs.Tight(), fs.v.ClusterBytes(), fs.Visible(), ops)
    modifies fs.handles, fs.v, fs.v.disk, fs.v.cbuf, fs.v.fat, fs.v.root, fs`owners
    ensures fs.Valid() && StepAll(fs.v.ClusterBytes(), old(fs.Visible()), ops) == (fs.Visible(), replies)
    ensures OthersKept(old(fs.Snap()), fs.Snap())
    ensures SavedAll(fs.v.ClusterBytes(), old(fs.Visible()), ops, old(fs.v.TableClean())) ==> fs.v.TableClean()
  {
    hide FileSystem.Valid, FileSystem.Visible, FileSystem.Snap, FatVolume.Valid, Step, Legal, FatVolume.Max, Continues,
         OthersKept, Saved, FatVolume.TableClean;
    fs.ValidVolume();
    ghost var cs, a, s, was := fs.v.ClusterBytes(), fs.Visible(), fs.Snap(), fs.v.TableClean();
    OthersSame(s);
    ghost var saved := was;
    replies := [];
    assert ops[0..] == ops;
    ContinuesFirst(cs, a, ops);
    var i := 0;
    while i < |ops|
      invariant 0 <= i <= |ops| && fs.Valid()
      invariant LegalRun(fs.Tight(), cs, fs.Visible(), ops[i..])
      invariant Continues(cs, a, ops, replies, fs.Visible(), ops[i..])
      invariant fs.v.Valid() && OthersKept(s, fs.Snap())
      invariant (saved ==> fs.v.TableClean())
      invariant (SavedAll(cs, a, ops, was) == SavedAll(cs, fs.Visible(), ops[i..], saved))
    {
      ghost var b, t := fs.Visible(), fs.Snap();
      assert ops[i..][0] == ops[i] && ops[i..][1..] == ops[i + 1..];
      ghost var clean := fs.v.TableClean();
      var r := RunOne(fs, ops[i]);
      fs.ValidVolume();
      ContinuesOn(cs, a, ops, replies, b, ops[i..]);
      OthersTrans(s, t, fs.Snap());
      SavedWeaker(b, fs.Visible(), ops[i], r, saved, clean);
      saved := Saved(b, fs.Visible(), ops[i], r, saved);
      replies, i := replies + [r], i + 1;
    }
    assert ops[i..] == [];
    ContinuesLast(cs, a, ops, replies, fs.Visible());
  }

  // ---- what every reachable state satisfies ----

  /** Open files exist, positions lie inside them, no name is that of a file and of a subdirectory, and every file's
      bytes fit its clusters. */
  ghost predicate Sane(cs: nat, a: View) {
    Consistent(a) && a.files.Keys !! a.subdirs.Keys && forall n | n in a.files :: FM.Sound(cs, a.files[n])
  }

  /** What the driver shows is sane, in every valid state. */
  lemma VisibleIsSane(s: Store, hs: seq<Handle>)
    requires Inv(s) && HandlesOk(s, hs)
    ensures Sane(s.cs, ViewOf(s, hs))
  {
    hide IsFile, NameOf, DirMap, ClusterOf, SizeOf, FileAt, HandleOk, FM.Sound, WellFormed;
    var a := ViewOf(s, hs);
    forall h | 0 <= h < |a.handles| && a.handles[h].Opened?
      ensures a.handles[h].name in a.files && a.handles[h].pos <= |a.files[a.handles[h].name].bytes|
    {
      OpenHandle(s, hs, h);
    }
    forall n | n in a.files
      ensures FM.Sound(s.cs, a.files[n])
    {
      assert WellFormed(s.slots);
      NameInSlots(s, n);
    }
  }

  lemma NameInSlots(s: Store, n: Name)
    requires Inv(s) && n in Files(s)
    ensures FM.Sound(s.cs, Files(s)[n])
  {
    hide IsFile, NameOf, ClusterOf, SizeOf, Apart, TableOk;
    MapHas(s.slots);
    var i :| EntryAt(s.slots, i, n) && DirMap(s.slots)[n] == s.slots[i];
    assert SlotOk(s, s.slots[i]);
  }
}
