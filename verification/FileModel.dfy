/** What a caller sees of files and of free space: byte strings, cluster counts, and the effect of one write. */
module FileModel {
  import opened Bytes

  /** A file: its bytes, its clusters on the device, and whether its chain already ends in a cluster past the device. */
  datatype File = File(bytes: seq<byte>, clusters: nat, stuck: bool)

  /** A subdirectory: its clusters, and whether it holds nothing but "." and ".."; or one of these two markers
      itself. */
  datatype Folder = Marker | Folder(clusters: nat, stuck: bool, empty: bool)

  /** Free table entries whose clusters are on the device, and free entries past its end. */
  datatype Space = Space(free: nat, spare: nat)

  /** `b` with `w` written at `pos`, longer if it has to be: the old tail survives. */
  function Overwrite(b: seq<byte>, pos: nat, w: seq<byte>): (r: seq<byte>)
    requires pos <= |b|
    ensures |r| == if pos + |w| > |b| then pos + |w| else |b|
  {
    b[..pos] + w + (if pos + |w| < |b| then b[pos + |w|..] else [])
  }

  function CeilDiv(n: nat, m: nat): (q: nat)
    requires m > 0
  {
    if n == 0 then 0 else Quot(n - 1, m) + 1
  }

  function Max(a: nat, b: nat): nat { if a >= b then a else b }
  function Min(a: nat, b: nat): nat { if a <= b then a else b }

  /** A write to an empty file first allocates a cluster, on the device if there is one. */
  function FirstCluster(f: File, sp: Space): (File, Space) {
    if f.clusters > 0 || f.stuck then (f, sp)
    else if sp.free > 0 then (f.(clusters := 1), sp.(free := sp.free - 1))
    else if sp.spare > 0 then (f.(stuck := true), sp.(spare := sp.spare - 1))
    else (f, sp)
  }

  /** First position no byte can be written to. */
  function Room(cs: nat, f: File, sp: Space): nat {
    Pos(f.clusters + if f.stuck then 0 else sp.free, cs, 0)
  }

  /** The clusters on the device a file needs to hold `end` bytes, never fewer than it has. */
  function Need(cs: nat, f: File, end: nat): nat
    requires cs > 0
  {
    Max(f.clusters, CeilDiv(end, cs))
  }

  /** The file and the space once `w` has been written at `pos`. */
  function Put(cs: nat, f: File, sp: Space, pos: nat, w: seq<byte>): (File, Space)
    requires cs > 0 && pos <= |f.bytes|
  {
    var k := Need(cs, f, pos + |w|);
    (File(Overwrite(f.bytes, pos, w), k, f.stuck), sp.(free := Minus(sp.free, k - f.clusters)))
  }

  function Minus(a: nat, b: nat): nat { if b <= a then a - b else 0 }

  /** How many of `n` bytes at `pos` fit. */
  function Fits(cs: nat, f: File, sp: Space, pos: nat, n: nat): nat {
    Min(n, Minus(Room(cs, f, sp), pos))
  }

  /** One call of fs_write: the file, the space, and the value returned. */
  function Write(cs: nat, f: File, sp: Space, pos: nat, buf: seq<byte>): (r: (File, Space, int))
    requires cs > 0 && pos <= |f.bytes|
  {
    var (f1, sp1) := FirstCluster(f, sp);
    if f1.clusters == 0 && !f1.stuck then (f, sp, -1 as int)
    else
      var n := Fits(cs, f1, sp1, pos, |buf|);
      var (f2, sp2) := Put(cs, f1, sp1, pos, buf[..n]);
      if n < |buf| && !f1.stuck && sp2.spare > 0 then
        (f2.(stuck := true), sp2.(spare := sp2.spare - 1), n as int)
      else (f2, sp2, n as int)
  }

  /** A file as the driver keeps it: its bytes fit its clusters. */
  ghost predicate Sound(cs: nat, f: File) {
    |f.bytes| <= Pos(f.clusters, cs, 0)
  }

  /** The bytes accepted. */
  function Count(ret: int): nat { if ret < 0 then 0 else ret }

  // ---- laws of one write ----

  lemma CeilDivBounds(n: nat, m: nat, q: nat)
    requires m > 0
    ensures CeilDiv(n, m) <= q <==> n <= Pos(q, m, 0)
    ensures n > 0 ==> CeilDiv(n, m) > 0
  {
    hide Quot, Pos, Rem;
    if n > 0 {
      Located(n - 1, m, q, 0);
    }
  }

  /** What a write keeps: the bytes fit the clusters, and clusters are neither made nor lost. */
  lemma WriteSound(cs: nat, f: File, sp: Space, pos: nat, buf: seq<byte>)
    requires cs > 0 && Sound(cs, f) && pos <= |f.bytes|
    ensures var (g, tp, n) := Write(cs, f, sp, pos, buf);
      && Sound(cs, g) && g.clusters >= f.clusters
      && g.clusters + tp.free == f.clusters + sp.free
      && tp.spare + (if g.stuck then 1 else 0) == sp.spare + (if f.stuck then 1 else 0)
      && -1 <= n <= |buf| && g.bytes == Overwrite(f.bytes, pos, buf[..Count(n)])
  {
    var (f1, sp1) := FirstCluster(f, sp);
    assert f1.bytes == f.bytes;
    PosMonotone(f.clusters, f1.clusters, cs);
    if f1.clusters > 0 || f1.stuck {
      PutSound(cs, f1, sp1, pos, buf[..Fits(cs, f1, sp1, pos, |buf|)]);
    } else {
      assert Overwrite(f.bytes, pos, []) == f.bytes;
    }
  }

  lemma PutSound(cs: nat, f: File, sp: Space, pos: nat, w: seq<byte>)
    requires cs > 0 && Sound(cs, f) && pos <= |f.bytes| && |w| <= Minus(Room(cs, f, sp), pos)
    ensures var (g, tp) := Put(cs, f, sp, pos, w);
      && Sound(cs, g) && g.clusters >= f.clusters && g.clusters + tp.free == f.clusters + sp.free
      && tp.spare == sp.spare
      && (f.stuck ==> g.clusters == f.clusters)
  {
    var all := f.clusters + if f.stuck then 0 else sp.free;
    PosMonotone(f.clusters, all, cs);
    CeilDivBounds(pos + |w|, cs, all);
    var k := Need(cs, f, pos + |w|);
    CeilDivBounds(pos + |w|, cs, k);
    PosMonotone(f.clusters, k, cs);
  }

  /** The file owns exactly the clusters its size asks for. */
  predicate ExactFile(cs: nat, f: File)
    requires cs > 0
  {
    f.clusters == CeilDiv(|f.bytes|, cs)
  }

  /** Exact, or empty with one cluster. */
  predicate Lean(cs: nat, f: File)
    requires cs > 0
  {
    ExactFile(cs, f) || (f.bytes == [] && f.clusters == 1)
  }

  /** A write that takes a cluster although it has no byte to put there. */
  predicate TakesForNothing(f: File, sp: Space, buf: seq<byte>) {
    buf == [] && f.clusters == 0 && !f.stuck && sp.free > 0
  }

  /** Of an exact file, a write makes an inexact one exactly if it is empty and the file has no cluster yet but gets
      one. */
  lemma WriteExact(cs: nat, f: File, sp: Space, pos: nat, buf: seq<byte>)
    requires cs > 0 && Sound(cs, f) && pos <= |f.bytes| && ExactFile(cs, f)
    ensures ExactFile(cs, Write(cs, f, sp, pos, buf).0) <==> !TakesForNothing(f, sp, buf)
  {
    if buf == [] {
      EmptyWrite(cs, f, sp, pos);
      CeilDivBounds(|f.bytes|, cs, 0);
    } else {
      WriteBytesExact(cs, f, sp, pos, buf);
    }
  }

  /** An empty write changes nothing but the first cluster. */
  lemma EmptyWrite(cs: nat, f: File, sp: Space, pos: nat)
    requires cs > 0 && Sound(cs, f) && pos <= |f.bytes|
    ensures Write(cs, f, sp, pos, []).0 == FirstCluster(f, sp).0
  {
    var (f1, sp1) := FirstCluster(f, sp);
    PosMonotone(f.clusters, f1.clusters, cs);
    PutNothing(cs, f1, sp1, pos);
  }

  /** A write of at least one byte leaves an exact file, whether or not an earlier empty write had taken a cluster. */
  lemma WriteBytesExact(cs: nat, f: File, sp: Space, pos: nat, buf: seq<byte>)
    requires cs > 0 && Sound(cs, f) && pos <= |f.bytes| && Lean(cs, f) && |buf| > 0
    ensures ExactFile(cs, Write(cs, f, sp, pos, buf).0)
  {
    var (f1, sp1) := FirstCluster(f, sp);
    var n := Fits(cs, f1, sp1, pos, |buf|);
    var g := Write(cs, f, sp, pos, buf).0;
    if f1.clusters > 0 || f1.stuck {
      assert g.bytes == Overwrite(f.bytes, pos, buf[..n]);
      CeilDivBounds(|f.bytes|, cs, f.clusters);
      if f1.clusters == 1 && |f.bytes| == 0 {
        FirstBytes(cs, f1, sp1, |buf|);
      }
      CeilDivMonotone(pos + n, |g.bytes|, cs);
      CeilDivMonotone(|f.bytes|, |g.bytes|, cs);
    }
  }

  /** A cluster has room for at least one byte. */
  lemma FirstBytes(cs: nat, f: File, sp: Space, n: nat)
    requires cs > 0 && f.clusters == 1 && n > 0
    ensures var k := Fits(cs, f, sp, 0, n); k > 0 && CeilDiv(k, cs) >= 1
  {
    PosMonotone(1, f.clusters + sp.free, cs);
    assert Pos(1, cs, 0) == cs;
    CeilDivBounds(Fits(cs, f, sp, 0, n), cs, 1);
  }

  /** Every write, empty ones included, leaves the file exact or empty with one cluster. */
  lemma WriteLean(cs: nat, f: File, sp: Space, pos: nat, buf: seq<byte>)
    requires cs > 0 && Sound(cs, f) && pos <= |f.bytes| && Lean(cs, f)
    ensures Lean(cs, Write(cs, f, sp, pos, buf).0)
  {
    if buf == [] {
      EmptyWrite(cs, f, sp, pos);
      CeilDivBounds(|f.bytes|, cs, 0);
    } else {
      WriteBytesExact(cs, f, sp, pos, buf);
    }
  }

  lemma CeilDivMonotone(a: nat, b: nat, m: nat)
    requires m > 0 && a <= b
    ensures CeilDiv(a, m) <= CeilDiv(b, m)
  {
    CeilDivBounds(b, m, CeilDiv(b, m));
    CeilDivBounds(a, m, CeilDiv(b, m));
  }

  lemma OverwriteTwice(b: seq<byte>, pos: nat, u: seq<byte>, w: seq<byte>)
    requires pos <= |b|
    ensures Overwrite(Overwrite(b, pos, u), pos + |u|, w) == Overwrite(b, pos, u + w)
  {
  }

  /** Splitting the data over two calls makes no difference, whether or not the device fills up on the way. */
  lemma WriteSplit(cs: nat, f: File, sp: Space, pos: nat, u: seq<byte>, w: seq<byte>)
    requires cs > 0 && Sound(cs, f) && pos <= |f.bytes|
    ensures var (g, tp, n) := Write(cs, f, sp, pos, u);
      && pos + Count(n) <= |g.bytes|
      && var (g2, tp2, n2) := Write(cs, g, tp, pos + Count(n), w);
         var (h, vp, m) := Write(cs, f, sp, pos, u + w);
         h == g2 && vp == tp2 && Count(m) == Count(n) + Count(n2) && (m == -1 <==> n == -1)
  {
    hide Put, Fits, Overwrite, Pos;
    var (f1, sp1) := FirstCluster(f, sp);
    WriteFirst(cs, f, sp, pos, u);
    WriteFirst(cs, f, sp, pos, u + w);
    if f1.clusters > 0 || f1.stuck {
      PosMonotone(f.clusters, f1.clusters, cs);
      WriteSound(cs, f1, sp1, pos, u);
      if Fits(cs, f1, sp1, pos, |u|) < |u| {
        PutTwiceFull(cs, f1, sp1, pos, u, w);
      } else {
        FitsBound(cs, f1, sp1, pos, |u|);
        PutTwiceFits(cs, f1, sp1, pos, u, w);
      }
    }
  }

  lemma FitsBound(cs: nat, f: File, sp: Space, pos: nat, n: nat)
    ensures Fits(cs, f, sp, pos, n) <= n
  {
  }

  /** The first cluster is allocated once. */
  lemma WriteFirst(cs: nat, f: File, sp: Space, pos: nat, buf: seq<byte>)
    requires cs > 0 && pos <= |f.bytes|
    ensures var (f1, sp1) := FirstCluster(f, sp);
            if f1.clusters > 0 || f1.stuck then Write(cs, f, sp, pos, buf) == Write(cs, f1, sp1, pos, buf)
            else Write(cs, f, sp, pos, buf) == (f, sp, -1)
  {
    hide Put, Fits;
  }

  /** A write cut short leaves no room at all behind it. */
  lemma CutShort(cs: nat, f: File, sp: Space, pos: nat, n: nat)
    requires cs > 0 && Sound(cs, f) && pos <= |f.bytes| && Fits(cs, f, sp, pos, n) < n
    ensures var a := Fits(cs, f, sp, pos, n);
            pos + a == Room(cs, f, sp) && Need(cs, f, pos + a) == f.clusters + if f.stuck then 0 else sp.free
  {
    var all := f.clusters + if f.stuck then 0 else sp.free;
    PosMonotone(f.clusters, all, cs);
    CeilDivBounds(Pos(all, cs, 0), cs, all);
    if all > f.clusters {
      CeilDivBounds(Pos(all, cs, 0), cs, all - 1);
      Located(0, cs, all - 1, 0);
    }
  }

  /** Where there is no room nothing is written and nothing changes. */
  lemma NoRoom(cs: nat, g: File, tp: Space, pos: nat, w: seq<byte>)
    requires cs > 0 && Sound(cs, g) && pos <= |g.bytes| && Room(cs, g, tp) == pos && pos == Pos(g.clusters, cs, 0)
    requires (g.clusters > 0 || g.stuck) && (g.stuck || tp.spare == 0)
    ensures Write(cs, g, tp, pos, w) == (g, tp, 0)
  {
    CeilDivBounds(pos, cs, g.clusters);
    assert Overwrite(g.bytes, pos, []) == g.bytes;
  }

  /** The device fills up during the first call: the second one finds no room. */
  lemma PutTwiceFull(cs: nat, f: File, sp: Space, pos: nat, u: seq<byte>, w: seq<byte>)
    requires cs > 0 && Sound(cs, f) && pos <= |f.bytes| && (f.clusters > 0 || f.stuck)
    requires Fits(cs, f, sp, pos, |u|) < |u|
    ensures var (g, tp, n) := Write(cs, f, sp, pos, u);
      && n >= 0 && pos + n <= |g.bytes|
      && var (g2, tp2, n2) := Write(cs, g, tp, pos + n, w);
         Write(cs, f, sp, pos, u + w) == (g2, tp2, n + n2)
  {
    WriteSound(cs, f, sp, pos, u);
    var (g, tp, n) := Write(cs, f, sp, pos, u);
    CutShort(cs, f, sp, pos, |u|);
    assert u[..n] == (u + w)[..n];
    hide Overwrite, CeilDiv;
    NoRoom(cs, g, tp, pos + n, w);
  }

  /** Without an empty file in the way, a write is Put and at most one cluster past the device. */
  lemma WriteIsPut(cs: nat, f: File, sp: Space, pos: nat, buf: seq<byte>, n: nat)
    requires cs > 0 && pos <= |f.bytes| && (f.clusters > 0 || f.stuck) && n == Fits(cs, f, sp, pos, |buf|)
    ensures n <= |buf|
    ensures var (f2, sp2) := Put(cs, f, sp, pos, buf[..n]);
      Write(cs, f, sp, pos, buf)
      == if n < |buf| && !f.stuck && sp2.spare > 0 then (f2.(stuck := true), sp2.(spare := sp2.spare - 1), n as int)
         else (f2, sp2, n as int)
  {
    hide Put, Room;
  }

  /** Putting twice is putting once, as long as there is room. */
  lemma PutTwice(cs: nat, f: File, sp: Space, pos: nat, u: seq<byte>, w: seq<byte>)
    requires cs > 0 && Sound(cs, f) && pos <= |f.bytes| && |u| <= Minus(Room(cs, f, sp), pos)
    ensures var (g, tp) := Put(cs, f, sp, pos, u);
      && pos + |u| <= |g.bytes| && g.stuck == f.stuck && Room(cs, g, tp) == Room(cs, f, sp)
      && (|w| <= Minus(Room(cs, g, tp), pos + |u|) ==> Put(cs, g, tp, pos + |u|, w) == Put(cs, f, sp, pos, u + w))
  {
    PutSound(cs, f, sp, pos, u);
    var (g, tp) := Put(cs, f, sp, pos, u);
    OverwriteTwice(f.bytes, pos, u, w);
    CeilDivMonotone(pos + |u|, pos + |u| + |w|, cs);
    hide Overwrite, CeilDiv, Pos, Quot;
    if |w| <= Minus(Room(cs, g, tp), pos + |u|) {
      PutSound(cs, f, sp, pos, u + w);
      PutSound(cs, g, tp, pos + |u|, w);
    }
  }

  /** The first call writes everything: the second one goes on where a single call would be. */
  lemma PutTwiceFits(cs: nat, f: File, sp: Space, pos: nat, u: seq<byte>, w: seq<byte>)
    requires cs > 0 && Sound(cs, f) && pos <= |f.bytes| && (f.clusters > 0 || f.stuck)
    requires Fits(cs, f, sp, pos, |u|) == |u|
    ensures var (g, tp, n) := Write(cs, f, sp, pos, u);
      && n >= 0 && pos + n <= |g.bytes|
      && var (g2, tp2, n2) := Write(cs, g, tp, pos + n, w);
         Write(cs, f, sp, pos, u + w) == (g2, tp2, n + n2)
  {
    var a := |u|;
    assert u[..a] == u;
    PutSound(cs, f, sp, pos, u);
    WriteIsPut(cs, f, sp, pos, u, a);
    var (g, tp) := Put(cs, f, sp, pos, u);
    var b := Fits(cs, g, tp, pos + a, |w|);
    PutTwice(cs, f, sp, pos, u, w[..b]);
    assert (u + w)[..a + b] == u + w[..b];
    hide Put, Write, Room, Sound;
    WriteIsPut(cs, g, tp, pos + a, w, b);
    WriteIsPut(cs, f, sp, pos, u + w, a + b);
  }

  // ---- one chunk more ----

  lemma PutNothing(cs: nat, f: File, sp: Space, pos: nat)
    requires cs > 0 && Sound(cs, f) && pos <= |f.bytes|
    ensures Put(cs, f, sp, pos, []) == (f, sp)
  {
    CeilDivBounds(pos, cs, f.clusters);
    assert Overwrite(f.bytes, pos, []) == f.bytes;
  }

  /** A chunk that stays inside the clusters the file has. */
  lemma PutInside(cs: nat, f: File, sp: Space, pos: nat, w: seq<byte>, x: seq<byte>)
    requires cs > 0 && Sound(cs, f) && pos <= |f.bytes|
    requires var (f1, sp1) := Put(cs, f, sp, pos, w); pos + |w| + |x| <= Pos(f1.clusters, cs, 0)
    ensures var (f1, sp1) := Put(cs, f, sp, pos, w);
            Put(cs, f, sp, pos, w + x) == (f1.(bytes := Overwrite(f1.bytes, pos + |w|, x)), sp1)
  {
    hide Pos, Overwrite, CeilDiv;
    var (f1, sp1) := Put(cs, f, sp, pos, w);
    OverwriteTwice(f.bytes, pos, w, x);
    CeilDivMonotone(pos + |w|, pos + |w| + |x|, cs);
    CeilDivBounds(pos + |w| + |x|, cs, f1.clusters);
  }

  /** A chunk behind the last cluster of the file, which therefore gets one more. */
  lemma PutBehind(cs: nat, f: File, sp: Space, pos: nat, w: seq<byte>, x: seq<byte>)
    requires cs > 0 && Sound(cs, f) && pos <= |f.bytes| && 0 < |x| <= cs
    requires var (f1, sp1) := Put(cs, f, sp, pos, w);
             pos + |w| == Pos(f1.clusters, cs, 0) && sp1.free > 0 && f1.clusters + sp1.free == f.clusters + sp.free
    ensures var (f1, sp1) := Put(cs, f, sp, pos, w);
            Put(cs, f, sp, pos, w + x) == (f1.(bytes := Overwrite(f1.bytes, pos + |w|, x), clusters := f1.clusters + 1),
                                           sp1.(free := sp1.free - 1))
  {
    hide Pos, Overwrite, CeilDiv;
    var (f1, sp1) := Put(cs, f, sp, pos, w);
    var k := f1.clusters;
    OverwriteTwice(f.bytes, pos, w, x);
    CeilDivBounds(pos + |w| + |x|, cs, k);
    CeilDivBounds(pos + |w| + |x|, cs, k + 1);
    Located(0, cs, k, 0);
  }
}
