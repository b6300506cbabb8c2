/** The write loop of the driver as steps on a store, and what the whole loop amounts to. */
module Writing {
  import opened Bytes
  import opened FatCodec
  import opened Chains
  import opened Directory
  import opened Stores
  import FM = FileModel

  ghost predicate CanWrite(s: Store, h: nat, size: nat, pos: nat) {
    Inv(s) && h != 0 && h != s.home && FileOk(s, h, size) && pos <= size
  }

  /** From `s0`, the bytes `w` have been written at `pos` of the file `h`, and nothing else has happened. */
  ghost predicate Wrote(s0: Store, s: Store, h: nat, size: nat, pos: nat, w: seq<byte>)
    requires CanWrite(s0, h, size, pos)
  {
    var n := FM.Max(size, pos + |w|);
    && Inv(s) && s.slots == s0.slots && s.home == s0.home && s.cs == s0.cs && Frame(s0, s, h)
    && s.owners.Keys == s0.owners.Keys && FileOk(s, h, n)
    && (FileAt(s, h, n), s.Space()) == FM.Put(s.cs, FileAt(s0, h, size), s0.Space(), pos, w)
    && FileAt(s, h, n).clusters + s.Space().free == FileAt(s0, h, size).clusters + s0.Space().free
    && (FileAt(s0, h, size).stuck ==> FileAt(s, h, n).clusters == FileAt(s0, h, size).clusters)
  }

  /** The call has ended: file, free space and result are those of the abstract write, all else is as it was. */
  ghost predicate Written(s0: Store, s: Store, h: nat, size: nat, pos: nat, buf: seq<byte>, total: nat)
    requires CanWrite(s0, h, size, pos)
  {
    var n := FM.Max(size, pos + total);
    && Inv(s) && s.slots == s0.slots && s.home == s0.home && s.cs == s0.cs && Frame(s0, s, h)
    && s.owners.Keys == s0.owners.Keys && FileOk(s, h, n)
    && (FileAt(s, h, n), s.Space(), total as int) == FM.Write(s.cs, FileAt(s0, h, size), s0.Space(), pos, buf)
  }

  lemma FileIsSound(s: Store, h: nat, size: nat)
    requires h != 0 && FileOk(s, h, size)
    ensures FM.Sound(s.cs, FileAt(s, h, size)) && |FileAt(s, h, size).bytes| == size
    ensures h in s.owners && (FileAt(s, h, size).clusters > 0 || FileAt(s, h, size).stuck)
  {
  }

  lemma WroteNothing(s: Store, h: nat, size: nat, pos: nat)
    requires CanWrite(s, h, size, pos)
    ensures Wrote(s, s, h, size, pos, [])
  {
    hide Inv, FileOk, FileAt;
    FileIsSound(s, h, size);
    assert s.cs > 0 by { BlocksPositive(s); }
    FM.PutNothing(s.cs, FileAt(s, h, size), s.Space(), pos);
  }

  lemma BlocksPositive(s: Store)
    requires Inv(s)
    ensures s.cs > 0
  {
  }

  /** One chunk inside cluster `idx` of the file. */
  lemma WroteInside(s0: Store, s: Store, h: nat, size: nat, pos: nat, w: seq<byte>, idx: nat, o: nat, x: seq<byte>)
    requires CanWrite(s0, h, size, pos) && Wrote(s0, s, h, size, pos, w)
    requires idx < OnDevice(s.owners[h], |s.data|) && Pos(idx, s.cs, o) == pos + |w| && o + |x| <= s.cs
    ensures idx < |s.owners[h]| && s.owners[h][idx] < |s.data|
    ensures var c := s.owners[h][idx];
      && c >= 2 && |s.data[c]| == s.cs
      && Wrote(s0, s.(data := s.data[c := Splice(s.data[c], o, x)]), h, size, pos, w + x)
  {
    hide Inv, FM.Put, Pos, Frame, SlotOk, Content;
    var n := FM.Max(size, pos + |w|);
    assert s.owners[h][idx] < |s.data|;
    StepData(s, h, idx, o, x, n);
    var c := s.owners[h][idx];
    var t := s.(data := s.data[c := Splice(s.data[c], o, x)]);
    FileIsSound(s0, h, size);
    FileIsSound(s, h, n);
    PosInBlock(idx, s.cs, o, |x|, OnDevice(s.owners[h], |s.data|));
    BlocksPositive(s);
    FM.PutInside(s.cs, FileAt(s0, h, size), s0.Space(), pos, w, x);
    FrameTrans(s0, s, t, h);
    assert |w + x| == |w| + |x|;
  }

  /** Linking a cluster takes it from the free ones, and nothing else. */
  lemma ExtendedSpace(s: Store, h: nat, c: nat)
    requires Inv(s) && h in s.owners && 2 <= c < s.Lim() && s.fat[c] == 0
    ensures var sp := Extended(s, h, c).Space();
            s.Space() == if c < |s.data| then sp.(free := sp.free + 1) else sp.(spare := sp.spare + 1)
  {
    hide FatCodec.Eof, Partition, InRange;
    LastLinked(s, h);
    var last := LastOf(s.owners[h]);
    assert last in s.owners[h];
    LastUsed(s, h, last);
    assert s.Eof() > 0;
    AllocSpace(s, c, s.Eof());
    var t := s.(fat := s.fat[c := s.Eof()]);
    assert FreeSet(t.fat[last := c], 2, t.End()) == FreeSet(t.fat, 2, t.End());
    assert FreeSet(t.fat[last := c], t.End(), t.Lim()) == FreeSet(t.fat, t.End(), t.Lim());
  }

  lemma LastUsed(s: Store, h: nat, c: nat)
    requires TableOk(s) && h in s.owners && c in s.owners[h]
    ensures c < |s.fat| && s.fat[c] != 0
  {
    assert s.Lim() <= s.Eof();
    ChainUsed(s.fat, s.Eof(), s.owners[h], c);
  }

  /** One chunk behind the last cluster of the file, for which a cluster on the device has been linked. */
  lemma WroteBehind(s0: Store, s: Store, h: nat, size: nat, pos: nat, w: seq<byte>, c: nat, x: seq<byte>)
    requires CanWrite(s0, h, size, pos) && Wrote(s0, s, h, size, pos, w)
    requires |s.owners[h]| == OnDevice(s.owners[h], |s.data|) && Pos(|s.owners[h]|, s.cs, 0) == pos + |w|
    requires 2 <= c < s.Lim() && c < |s.data| && s.fat[c] == 0 && 0 < |x| <= s.cs
    ensures |s.data[c]| == s.cs
    ensures var e := Extended(s, h, c);
            Wrote(s0, e.(data := e.data[c := Splice(e.data[c], 0, x)]), h, size, pos, w + x)
  {
    hide Inv, FM.Put, Pos, Frame, SlotOk, Content, FatCodec.Eof;
    var n := FM.Max(size, pos + |w|);
    WroteFits(s0, s, h, size, pos, w);
    StepExtend(s, h, c, n);
    var e := Extended(s, h, c);
    var idx := |s.owners[h]|;
    assert e.owners[h][idx] == c;
    StepData(e, h, idx, 0, x, n);
    var t := e.(data := e.data[c := Splice(e.data[c], 0, x)]);
    FileIsSound(s0, h, size);
    BlocksPositive(s);
    ExtendedSpace(s, h, c);
    FM.PutBehind(s.cs, FileAt(s0, h, size), s0.Space(), pos, w, x);
    FrameTrans(s0, s, e, h);
    FrameTrans(s0, e, t, h);
    assert |w + x| == |w| + |x|;
  }

  // ---- the ends of the loop ----

  lemma NoMoreFits(cs: nat, f: FM.File, sp: FM.Space, pos: nat, n: nat, g: FM.File, tp: FM.Space)
    requires cs > 0 && FM.Sound(cs, g) && pos + n <= |g.bytes|
    requires g.clusters + tp.free == f.clusters + sp.free && (f.stuck ==> g.clusters == f.clusters)
    ensures pos + n <= FM.Room(cs, f, sp)
    ensures pos + n == Pos(g.clusters, cs, 0) && (f.stuck || tp.free == 0) ==> pos + n == FM.Room(cs, f, sp)
  {
    PosMonotone(g.clusters, f.clusters + if f.stuck then 0 else sp.free, cs);
  }

  lemma WroteFits(s0: Store, s: Store, h: nat, size: nat, pos: nat, w: seq<byte>)
    requires CanWrite(s0, h, size, pos) && Wrote(s0, s, h, size, pos, w)
    ensures s.cs > 0 && pos + |w| <= FM.Room(s.cs, FileAt(s0, h, size), s0.Space())
    ensures var n := FM.Max(size, pos + |w|);
      pos + |w| == Pos(FileAt(s, h, n).clusters, s.cs, 0) && (FileAt(s0, h, size).stuck || s.Space().free == 0)
      ==> pos + |w| == FM.Room(s.cs, FileAt(s0, h, size), s0.Space())
    ensures FileAt(s, h, FM.Max(size, pos + |w|)).stuck == FileAt(s0, h, size).stuck
  {
    hide Inv, Pos, Frame;
    var n := FM.Max(size, pos + |w|);
    FileIsSound(s, h, n);
    BlocksPositive(s);
    NoMoreFits(s.cs, FileAt(s0, h, size), s0.Space(), pos, |w|, FileAt(s, h, n), s.Space());
  }

  /** Everything has been written. */
  lemma EndAll(s0: Store, s: Store, h: nat, size: nat, pos: nat, buf: seq<byte>)
    requires CanWrite(s0, h, size, pos) && Wrote(s0, s, h, size, pos, buf)
    ensures Written(s0, s, h, size, pos, buf, |buf|)
  {
    hide Inv, Pos, Frame, FM.Put, FM.Room, FileAt, FileOk;
    WroteFits(s0, s, h, size, pos, buf);
    FileIsSound(s0, h, size);
    assert buf[..|buf|] == buf;
  }

  /** The next cluster is past the end of the device, or there is none. */
  lemma EndFull(s0: Store, s: Store, h: nat, size: nat, pos: nat, buf: seq<byte>, t: nat)
    requires CanWrite(s0, h, size, pos) && t < |buf| && Wrote(s0, s, h, size, pos, buf[..t])
    requires pos + t == Pos(FileAt(s, h, FM.Max(size, pos + t)).clusters, s.cs, 0)
    requires FileAt(s, h, FM.Max(size, pos + t)).stuck || (s.Space().free == 0 && s.Space().spare == 0)
    ensures Written(s0, s, h, size, pos, buf, t)
  {
    hide Inv, Pos, Frame, FM.Put, FM.Room, FileAt, FileOk;
    WroteFits(s0, s, h, size, pos, buf[..t]);
    FileIsSound(s0, h, size);
  }

  /** The chain gets one last cluster, past the end of the device. */
  lemma EndStuck(s0: Store, s: Store, h: nat, size: nat, pos: nat, buf: seq<byte>, t: nat, c: nat)
    requires CanWrite(s0, h, size, pos) && t < |buf| && Wrote(s0, s, h, size, pos, buf[..t])
    requires var f := FileAt(s, h, FM.Max(size, pos + t)); pos + t == Pos(f.clusters, s.cs, 0) && !f.stuck
    requires s.Space().free == 0 && 2 <= c < s.Lim() && c >= |s.data| && s.fat[c] == 0
    ensures Written(s0, Extended(s, h, c), h, size, pos, buf, t)
  {
    hide Inv, Pos, Frame, FM.Put, FM.Room, FileAt, FileOk;
    WroteFits(s0, s, h, size, pos, buf[..t]);
    FileIsSound(s0, h, size);
    FileIsSound(s, h, FM.Max(size, pos + t));
    ExtendedSpace(s, h, c);
    StepExtend(s, h, c, FM.Max(size, pos + t));
    FrameTrans(s0, s, Extended(s, h, c), h);
  }
}
