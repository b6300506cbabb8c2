/** Laws of the abstract file system, over single calls and over whole runs. */
module RunLaws {
  import opened Bytes
  import opened Directory
  import opened FsModel
  import opened Runs
  import FM = FileModel

  /** Open files exist, positions lie inside them, and bytes fit clusters: kept by every legal call. */
  lemma StepSane(tight: bool, cs: nat, a: View, op: Op)
    requires cs > 0 && Sane(cs, a) && Legal(tight, a, op)
    ensures Sane(cs, Step(cs, a, op).0)
  {
    hide FM.Sound, FM.Write, Reserved, Ordinary, FM.Overwrite;
    match op
    case Write(h, buf) =>
      if IsOpen(a, h) {
        FM.WriteSound(cs, a.files[a.handles[h].name], a.space, a.handles[h].pos, buf);
      }
    case Create(n) =>
      NewFileSound(cs);
    case _ =>
  }

  lemma NewFileSound(cs: nat)
    ensures FM.Sound(cs, FM.File([], 0, false))
  {
  }

  lemma {:induction false} RunSane(tight: bool, cs: nat, a: View, ops: seq<Op>)
    requires cs > 0 && Sane(cs, a) && LegalRun(tight, cs, a, ops)
    ensures Sane(cs, StepAll(cs, a, ops).0)
    decreases |ops|
  {
    hide Sane, Step, Legal;
    if ops != [] {
      StepSane(tight, cs, a, ops[0]);
      RunSane(tight, cs, Step(cs, a, ops[0]).0, ops[1..]);
    }
  }

  // ---- other files ----

  /** The call is not about file `n`. */
  ghost predicate Spares(a: View, op: Op, n: Name) {
    match op
    case Create(m) => m != n
    case Unlink(m) => m != n
    case Rename(from, to) => from != n && to != n
    case Write(h, buf) => IsOpen(a, h) ==> a.handles[h].name != n
    case _ => true
  }

  /** No call of the run is about file `n`. */
  ghost predicate SparesAll(cs: nat, a: View, ops: seq<Op>, n: Name)
    requires cs > 0
    decreases |ops|
  {
    ops == [] || (Spares(a, ops[0], n) && SparesAll(cs, Step(cs, a, ops[0]).0, ops[1..], n))
  }

  lemma {:induction false} RunSpares(cs: nat, a: View, ops: seq<Op>, n: Name)
    requires cs > 0 && n in a.files && SparesAll(cs, a, ops, n)
    ensures var b := StepAll(cs, a, ops).0; n in b.files && b.files[n] == a.files[n]
    decreases |ops|
  {
    hide FM.Write;
    if ops != [] {
      RunSpares(cs, Step(cs, a, ops[0]).0, ops[1..], n);
    }
  }

  /** What has been written is read back, through any handle opened later, after any run that spares the file;
      bytes beyond the write keep their old value. */
  lemma ReadsBack(cs: nat, a: View, h: int, buf: seq<byte>, ops: seq<Op>, n: Name, h2: int, k: nat)
    requires cs > 0 && Sane(cs, a) && IsOpen(a, h) && n == a.handles[h].name
    requires SparesAll(cs, Step(cs, a, Write(h, buf)).0, ops, n)
    requires var b := StepAll(cs, Step(cs, a, Write(h, buf)).0, ops).0; IsOpen(b, h2) && b.handles[h2].name == n
    ensures var (a1, r) := Step(cs, a, Write(h, buf));
      var b := StepAll(cs, a1, ops).0;
      var pos, p := a.handles[h].pos, b.handles[h2].pos;
      && r.Code? && -1 <= r.code <= |buf|
      && var whole := FM.Overwrite(a.files[n].bytes, pos, buf[..FM.Count(r.code)]);
         p <= |whole| && Step(cs, b, Read(h2, k)).1 == Data(whole[p..FM.Min(p + k, |whole|)])
  {
    hide FM.Write, FM.Sound, FM.Overwrite, StepAll, SparesAll;
    FM.WriteSound(cs, a.files[n], a.space, a.handles[h].pos, buf);
    RunSpares(cs, Step(cs, a, Write(h, buf)).0, ops, n);
  }

  // ---- splitting the data over calls ----

  function Writes(h: int, pieces: seq<seq<byte>>): seq<Op> {
    seq(|pieces|, i requires 0 <= i < |pieces| => Write(h, pieces[i]))
  }

  function Flat(pieces: seq<seq<byte>>): seq<byte> {
    if pieces == [] then [] else pieces[0] + Flat(pieces[1..])
  }

  /** Bytes accepted by a run of writes. */
  function Accepted(rs: seq<Reply>): nat {
    if rs == [] then 0 else (if rs[0].Code? then FM.Count(rs[0].code) else 0) + Accepted(rs[1..])
  }

  lemma TwoWrites(cs: nat, a: View, h: int, u: seq<byte>, w: seq<byte>)
    requires cs > 0 && Sane(cs, a) && IsOpen(a, h)
    ensures var (b, r) := Step(cs, a, Write(h, u));
      && IsOpen(b, h) && (FM.Sound(cs, b.files[a.handles[h].name]))
      && var (c, q) := Step(cs, b, Write(h, w));
         var (d, m) := Step(cs, a, Write(h, u + w));
         d == c && r.Code? && q.Code? && m.Code? && FM.Count(m.code) == FM.Count(r.code) + FM.Count(q.code)
  {
    hide FM.Write, FM.Sound, FM.Overwrite;
    var n, pos := a.handles[h].name, a.handles[h].pos;
    FM.WriteSplit(cs, a.files[n], a.space, pos, u, w);
    FM.WriteSound(cs, a.files[n], a.space, pos, u);
    var b := Step(cs, a, Write(h, u)).0;
    var c, d := Step(cs, b, Write(h, w)).0, Step(cs, a, Write(h, u + w)).0;
    assert c.handles == d.handles;
    assert c.files == d.files;
  }

  lemma WriteKeepsSane(cs: nat, a: View, h: int, u: seq<byte>)
    requires cs > 0 && Sane(cs, a) && IsOpen(a, h)
    requires forall k | 0 <= k < |a.handles| && k != h && a.handles[k].Opened? :: a.handles[k].name != a.handles[h].name
    ensures var b := Step(cs, a, Write(h, u)).0;
      && Sane(cs, b) && IsOpen(b, h)
      && forall k | 0 <= k < |b.handles| && k != h && b.handles[k].Opened? :: b.handles[k].name != b.handles[h].name
  {
    hide FM.Write, FM.Sound, FM.Overwrite;
    FM.WriteSound(cs, a.files[a.handles[h].name], a.space, a.handles[h].pos, u);
  }

  /** However the data is cut into calls, the file, the free space and the number of bytes accepted are those of one
      call. */
  lemma {:induction false} AnySplit(cs: nat, a: View, h: int, pieces: seq<seq<byte>>)
    requires cs > 0 && Sane(cs, a) && IsOpen(a, h) && pieces != []
    requires forall k | 0 <= k < |a.handles| && k != h && a.handles[k].Opened? :: a.handles[k].name != a.handles[h].name
    ensures var (b, rs) := StepAll(cs, a, Writes(h, pieces));
            var (c, r) := Step(cs, a, Write(h, Flat(pieces)));
            b == c && r.Code? && Accepted(rs) == FM.Count(r.code)
    decreases |pieces|
  {
    hide FM.Write, FM.Sound, Sane, IsOpen, Step;
    var u, rest := pieces[0], pieces[1..];
    var ops := Writes(h, pieces);
    assert ops[0] == Write(h, u) && ops[1..] == Writes(h, rest);
    var (a1, r1) := Step(cs, a, ops[0]);
    TwoWrites(cs, a, h, u, Flat(rest));
    if rest == [] {
      assert pieces == [u] && u + [] == u && ops[1..] == [];
      assert StepAll(cs, a1, []) == (a1, []);
    } else {
      WriteKeepsSane(cs, a, h, u);
      AnySplit(cs, a1, h, rest);
    }
    var rs := StepAll(cs, a1, ops[1..]).1;
    assert ([r1] + rs)[1..] == rs;
  }

  function Reads(h: int, sizes: seq<nat>): seq<Op> {
    seq(|sizes|, i requires 0 <= i < |sizes| => Read(h, sizes[i]))
  }

  function Sum(sizes: seq<nat>): nat { if sizes == [] then 0 else sizes[0] + Sum(sizes[1..]) }

  function Delivered(rs: seq<Reply>): seq<byte> {
    if rs == [] then [] else (if rs[0].Data? then rs[0].bytes else []) + Delivered(rs[1..])
  }

  lemma TwoReads(cs: nat, a: View, h: int, m: nat, n: nat)
    requires cs > 0 && IsOpen(a, h)
    ensures var (b, r) := Step(cs, a, Read(h, m));
      && IsOpen(b, h)
      && var (c, q) := Step(cs, b, Read(h, n));
         var (d, t) := Step(cs, a, Read(h, m + n));
         c == d && r.Data? && q.Data? && t == Data(r.bytes + q.bytes)
  {
    var (b, r) := Step(cs, a, Read(h, m));
    var (c, q) := Step(cs, b, Read(h, n));
    var (d, t) := Step(cs, a, Read(h, m + n));
    assert c.handles == d.handles;
    assert t.bytes == r.bytes + q.bytes;
  }

  /** However the reading is cut into calls, the bytes delivered are those of one call. */
  lemma {:induction false} AnyReads(cs: nat, a: View, h: int, sizes: seq<nat>)
    requires cs > 0 && IsOpen(a, h)
    ensures var (b, rs) := StepAll(cs, a, Reads(h, sizes));
            var (c, r) := Step(cs, a, Read(h, Sum(sizes)));
            b == c && r == Data(Delivered(rs))
    decreases |sizes|
  {
    hide IsOpen, Step;
    if sizes == [] {
      assert Step(cs, a, Read(h, 0)) == (a, Data([])) by { ReadNothing(cs, a, h); }
    } else {
      var rest := sizes[1..];
      var ops := Reads(h, sizes);
      assert ops[0] == Read(h, sizes[0]) && ops[1..] == Reads(h, rest);
      TwoReads(cs, a, h, sizes[0], Sum(rest));
      var (a1, r1) := Step(cs, a, ops[0]);
      AnyReads(cs, a1, h, rest);
      var rs := StepAll(cs, a1, ops[1..]).1;
      assert ([r1] + rs)[1..] == rs;
    }
  }

  lemma ReadNothing(cs: nat, a: View, h: int)
    requires cs > 0 && IsOpen(a, h)
    ensures Step(cs, a, Read(h, 0)) == (a, Data([]))
  {
    var b := Step(cs, a, Read(h, 0)).0;
    assert b.handles == a.handles;
  }

  // ---- one call undoes another ----

  /** Removing a directory just made gives back everything it took. */
  lemma MkdirUndone(cs: nat, a: View, n: Name)
    requires cs > 0 && Step(cs, a, Mkdir(n)).1 == Code(0)
    ensures Step(cs, Step(cs, a, Mkdir(n)).0, Rmdir(n)) == (a, Code(0))
  {
    hide Reserved;
    assert a.subdirs[n := FM.Folder(1, false, true)] - {n} == a.subdirs;
  }

  lemma CreateUndone(cs: nat, a: View, n: Name)
    requires cs > 0 && Step(cs, a, Create(n)).1 == Code(0)
    ensures Step(cs, Step(cs, a, Create(n)).0, Unlink(n)) == (a, Code(0))
  {
    hide Reserved;
    assert a.files[n := FM.File([], 0, false)] - {n} == a.files;
  }

  lemma RenameUndone(cs: nat, a: View, from: Name, to: Name)
    requires cs > 0 && Step(cs, a, Rename(from, to)).1 == Code(0) && Sane(cs, a) && !IsDots(to)
    ensures Step(cs, Step(cs, a, Rename(from, to)).0, Rename(to, from)) == (a, Code(0))
  {
    hide FM.Sound;
    var b := Step(cs, a, Rename(from, to)).0;
    var c := Step(cs, b, Rename(to, from)).0;
    assert c.files == a.files;
    assert c.subdirs == a.subdirs;
    assert c.handles == a.handles;
  }

  // ---- conservation ----

  ghost function Total(m: map<Name, nat>): nat {
    if m == map[] then 0
    else
      var n :| n in m;
      m[n] + Total(m - {n})
  }

  /** The total does not depend on the order of counting. */
  lemma {:induction false} TotalWithout(m: map<Name, nat>, n: Name)
    requires n in m
    ensures Total(m) == m[n] + Total(m - {n})
    decreases |m|
  {
    var k :| k in m && Total(m) == m[k] + Total(m - {k});
    if k != n {
      TotalWithout(m - {k}, n);
      TotalWithout(m - {n}, k);
      assert m - {k} - {n} == m - {n} - {k};
    }
  }

  lemma TotalPut(m: map<Name, nat>, n: Name, k: nat)
    ensures Total(m[n := k]) == Total(m - {n}) + k
    ensures n !in m ==> Total(m[n := k]) == Total(m) + k
  {
    TotalWithout(m[n := k], n);
    assert m[n := k] - {n} == m - {n};
    assert n !in m ==> m - {n} == m;
  }

  function FolderClusters(d: FM.Folder): nat { if d.Folder? then d.clusters else 0 }

  /** Clusters on the device by name. */
  ghost function FileSizes(a: View): map<Name, nat> { map n | n in a.files :: a.files[n].clusters }
  ghost function FolderSizes(a: View): map<Name, nat> { map n | n in a.subdirs :: FolderClusters(a.subdirs[n]) }

  /** The clusters all files and subdirectories own on the device. */
  ghost function Owned(a: View): nat { Total(FileSizes(a)) + Total(FolderSizes(a)) }

  /** A mkdir that loses a cluster for want of a slot: what it takes from the free space. */
  ghost function Lost(a: View, op: Op): nat {
    if op.Mkdir? && !Taken(a, op.name) && !Reserved(op.name) && a.space.free > 0 && a.room == 0 then 1 else 0
  }

  /** Clusters move between the files, the subdirectories and the free space; only a mkdir for which the directory
      has no slot loses one. */
  lemma StepConserves(cs: nat, a: View, op: Op)
    requires cs > 0 && Sane(cs, a)
    ensures var b := Step(cs, a, op).0; Owned(b) + b.space.free + Lost(a, op) == Owned(a) + a.space.free
  {
    hide FM.Write, FM.Sound, FM.Overwrite, Reserved, Owned;
    match op
    case Write(h, buf) => WriteConserves(cs, a, h, buf);
    case Rename(from, to) => RenameConserves(cs, a, from, to);
    case Create(_) => FileConserves(cs, a, op);
    case Unlink(_) => FileConserves(cs, a, op);
    case Mkdir(_) => FolderConserves(cs, a, op);
    case Rmdir(_) => FolderConserves(cs, a, op);
    case Open(_) => SameOwned(a, Step(cs, a, op).0);
    case Read(_, _) => SameOwned(a, Step(cs, a, op).0);
    case Close(_) => SameOwned(a, Step(cs, a, op).0);
  }

  lemma SameOwned(a: View, b: View)
    requires b == a.(handles := b.handles)
    ensures Owned(b) == Owned(a)
  {
  }

  lemma WriteConserves(cs: nat, a: View, h: int, buf: seq<byte>)
    requires cs > 0 && Sane(cs, a)
    ensures var b := Step(cs, a, Write(h, buf)).0; Owned(b) + b.space.free == Owned(a) + a.space.free
  {
    hide FM.Write, FM.Sound, FM.Overwrite, Total;
    if IsOpen(a, h) {
      var b, f, n := Step(cs, a, Write(h, buf)).0, FileSizes(a), a.handles[h].name;
      FM.WriteSound(cs, a.files[n], a.space, a.handles[h].pos, buf);
      var g := FM.Write(cs, a.files[n], a.space, a.handles[h].pos, buf).0;
      assert FileSizes(b) == f[n := g.clusters] && FolderSizes(b) == FolderSizes(a);
      TotalWithout(f, n);
      TotalPut(f, n, g.clusters);
    }
  }

  lemma FileConserves(cs: nat, a: View, op: Op)
    requires cs > 0 && (op.Create? || op.Unlink?)
    ensures var b := Step(cs, a, op).0; Owned(b) + b.space.free == Owned(a) + a.space.free
  {
    hide Total, Reserved;
    var b, f, n := Step(cs, a, op).0, FileSizes(a), op.name;
    assert FolderSizes(b) == FolderSizes(a);
    if op.Create? && b != a {
      assert FileSizes(b) == f[n := 0];
      TotalPut(f, n, 0);
    } else if op.Unlink? && n in a.files {
      assert FileSizes(b) == f - {n};
      TotalWithout(f, n);
    }
  }

  lemma FolderConserves(cs: nat, a: View, op: Op)
    requires cs > 0 && (op.Mkdir? || op.Rmdir?)
    ensures var b := Step(cs, a, op).0; Owned(b) + b.space.free + Lost(a, op) == Owned(a) + a.space.free
  {
    hide Total, Reserved;
    var b, d, n := Step(cs, a, op).0, FolderSizes(a), op.name;
    assert FileSizes(b) == FileSizes(a);
    if op.Mkdir? && b.subdirs != a.subdirs {
      assert FolderSizes(b) == d[n := 1];
      TotalPut(d, n, 1);
    } else if op.Rmdir? && b.subdirs != a.subdirs {
      assert FolderSizes(b) == d - {n};
      TotalWithout(d, n);
    }
  }

  lemma RenameConserves(cs: nat, a: View, from: Name, to: Name)
    requires cs > 0
    ensures var b := Step(cs, a, Rename(from, to)).0; Owned(b) == Owned(a) && b.space == a.space
  {
    hide Total;
    var b := Step(cs, a, Rename(from, to)).0;
    var f: map<Name, nat>, d: map<Name, nat> := FileSizes(a), FolderSizes(a);
    var less: map<Name, nat>, fewer: map<Name, nat> := f - {from}, d - {from};
    if !IsDots(from) && Taken(a, from) && !Taken(a, to) {
      if from in a.files {
        assert FileSizes(b) == less[to := f[from]] && FolderSizes(b) == d;
        TotalWithout(f, from);
        TotalPut(less, to, f[from]);
      } else {
        assert FileSizes(b) == f && FolderSizes(b) == fewer[to := d[from]];
        TotalWithout(d, from);
        TotalPut(fewer, to, d[from]);
      }
    }
  }

  ghost function LostAll(cs: nat, a: View, ops: seq<Op>): nat
    requires cs > 0
    decreases |ops|
  {
    if ops == [] then 0 else Lost(a, ops[0]) + LostAll(cs, Step(cs, a, ops[0]).0, ops[1..])
  }

  lemma {:induction false} RunConserves(tight: bool, cs: nat, a: View, ops: seq<Op>)
    requires cs > 0 && Sane(cs, a) && LegalRun(tight, cs, a, ops)
    ensures var b := StepAll(cs, a, ops).0;
            Owned(b) + b.space.free + LostAll(cs, a, ops) == Owned(a) + a.space.free
    decreases |ops|
  {
    hide Sane, Step, Legal, Owned, Lost;
    if ops != [] {
      StepSane(tight, cs, a, ops[0]);
      StepConserves(cs, a, ops[0]);
      RunConserves(tight, cs, Step(cs, a, ops[0]).0, ops[1..]);
    }
  }

  // ---- how many clusters a file owns ----

  /** Every file owns exactly the clusters its size asks for. */
  ghost predicate Exact(cs: nat, a: View)
    requires cs > 0
  {
    forall n | n in a.files :: FM.ExactFile(cs, a.files[n])
  }

  /** Every file is exact, or empty with one cluster. */
  ghost predicate AllLean(cs: nat, a: View)
    requires cs > 0
  {
    forall n | n in a.files :: FM.Lean(cs, a.files[n])
  }

  /** An empty write to an open file without a cluster while one is free. */
  ghost predicate Wasteful(a: View, op: Op) {
    op.Write? && IsOpen(a, op.h) && FM.TakesForNothing(a.files[a.handles[op.h].name], a.space, op.buf)
  }

  /** Exact before the run and after each of its calls. */
  ghost predicate ExactAll(cs: nat, a: View, ops: seq<Op>)
    requires cs > 0
    decreases |ops|
  {
    Exact(cs, a) && (ops != [] ==> ExactAll(cs, Step(cs, a, ops[0]).0, ops[1..]))
  }

  ghost predicate NoneWasteful(cs: nat, a: View, ops: seq<Op>)
    requires cs > 0
    decreases |ops|
  {
    ops != [] ==> !Wasteful(a, ops[0]) && NoneWasteful(cs, Step(cs, a, ops[0]).0, ops[1..])
  }

  /** After every legal run, empty writes included, each file that has bytes owns exactly the clusters its size asks
      for, and an empty one owns at most one. */
  lemma {:induction false} RunLean(tight: bool, cs: nat, a: View, ops: seq<Op>)
    requires cs > 0 && Sane(cs, a) && LegalRun(tight, cs, a, ops) && AllLean(cs, a)
    ensures var b := StepAll(cs, a, ops).0;
      && AllLean(cs, b)
      && forall n | n in b.files ::
           if b.files[n].bytes == [] then b.files[n].clusters <= 1 else FM.ExactFile(cs, b.files[n])
    decreases |ops|
  {
    hide Sane, Step, Legal;
    if ops != [] {
      StepSane(tight, cs, a, ops[0]);
      StepLean(cs, a, ops[0]);
      RunLean(tight, cs, Step(cs, a, ops[0]).0, ops[1..]);
    }
  }

  lemma StepLean(cs: nat, a: View, op: Op)
    requires cs > 0 && Sane(cs, a) && AllLean(cs, a)
    ensures AllLean(cs, Step(cs, a, op).0)
  {
    hide FM.Write, FM.Sound, FM.Overwrite, Reserved, Quot;
    match op
    case Write(h, buf) =>
      if IsOpen(a, h) {
        var n := a.handles[h].name;
        FM.WriteLean(cs, a.files[n], a.space, a.handles[h].pos, buf);
      }
    case _ =>
  }

  /** All files stay exact throughout a legal run exactly if none of its calls is an empty write to a file without a
      cluster while one is free. */
  lemma {:induction false} RunExact(tight: bool, cs: nat, a: View, ops: seq<Op>)
    requires cs > 0 && Sane(cs, a) && LegalRun(tight, cs, a, ops) && Exact(cs, a)
    ensures ExactAll(cs, a, ops) <==> NoneWasteful(cs, a, ops)
    decreases |ops|
  {
    hide Sane, Step, Legal, Exact, Wasteful;
    if ops != [] {
      var b := Step(cs, a, ops[0]).0;
      StepSane(tight, cs, a, ops[0]);
      StepExact(cs, a, ops[0]);
      if Exact(cs, b) { RunExact(tight, cs, b, ops[1..]); }
    }
  }

  lemma StepExact(cs: nat, a: View, op: Op)
    requires cs > 0 && Sane(cs, a) && Exact(cs, a)
    ensures Exact(cs, Step(cs, a, op).0) <==> !Wasteful(a, op)
  {
    hide FM.Write, FM.Sound, FM.Overwrite, FM.ExactFile, FM.TakesForNothing, Reserved;
    match op
    case Write(h, buf) =>
      if IsOpen(a, h) {
        var n, b := a.handles[h].name, Step(cs, a, op).0;
        FM.WriteExact(cs, a.files[n], a.space, a.handles[h].pos, buf);
        assert b.files[n] == FM.Write(cs, a.files[n], a.space, a.handles[h].pos, buf).0;
      }
    case Create(_) => NewFileExact(cs);
    case _ =>
  }

  lemma NewFileExact(cs: nat)
    requires cs > 0
    ensures FM.ExactFile(cs, FM.File([], 0, false))
  {
  }

  /** The empty write that is wasteful, on a new file. */
  lemma EmptyWriteTakesACluster(cs: nat, f: FM.File, sp: FM.Space)
    requires cs > 0 && f == FM.File([], 0, false) && sp.free > 0
    ensures FM.Write(cs, f, sp, 0, []) == (FM.File([], 1, false), FM.Space(sp.free - 1, sp.spare), 0)
  {
  }
}
