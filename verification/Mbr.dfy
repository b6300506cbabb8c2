/** Partition tables on a disk: reading, writing, editing, and the largest free stretch. */
module Mbr {
  import opened Bytes
  import opened Disks
  import opened MbrTables

  /** What callers see of a disk's table: its entries, all blank where there is no table. */
  function TableOf(b: Sector): (ps: seq<Part>)
    ensures |ps| == PARTS
  {
    if Decode(b).Table? then Decode(b).parts else [EMPTY, EMPTY, EMPTY, EMPTY]
  }

  method MbrRead(disk: Disk) returns (ok: bool, out: seq<Part>)
    requires disk.reliable && |disk.sectors| > 0
    ensures |out| == PARTS && (ok <==> Decode(disk.sectors[0]).Table?) && (ok ==> out == Entries(disk.sectors[0]))
  {
    hide Le32;
    var r, sec := disk.Read(0, 1);
    assert disk.sectors[0..1] == [disk.sectors[0]];
    OneSector(disk.sectors[0]);
    out := [EMPTY, EMPTY, EMPTY, EMPTY];
    if sec[510] != 0x55 || sec[511] != 0xAA {
      return false, out;
    }
    ok := false;
    var i := 0;
    while i < PARTS
      invariant 0 <= i <= PARTS && |out| == PARTS && sec == disk.sectors[0]
      invariant forall k | 0 <= k < i ::
        out[k] == Entry(sec, k) && (sec[TABLE + k * ENTRY] == 0 || sec[TABLE + k * ENTRY] == 0x80)
      invariant ok <==> exists k | 0 <= k < i :: Plausible(Entry(sec, k))
    {
      var e := Entry(sec, i);
      if e.boot != 0 && e.boot != 0x80 {
        return false, out;
      }
      out := out[i := e];
      if Plausible(e) {
        ok := true;
      }
      i := i + 1;
    }
    assert out == Entries(sec);
  }

  /** Store the table in sector 0; a sector without signature gets the embedded boot code first. */
  method MbrWrite(disk: Disk, parts: seq<Part>, blob: Sector)
    requires disk.reliable && |disk.sectors| > 0 && |parts| == PARTS
    modifies disk
    ensures |disk.sectors| == |old(disk.sectors)| && disk.sectors == old(disk.sectors)[0 := disk.sectors[0]]
    ensures var was := old(disk.sectors)[0]; Encoded(disk.sectors[0], if Signed(was) then was else blob, parts)
  {
    hide EntryBytes, Encoded;
    var r, sec := disk.Read(0, 1);
    assert disk.sectors[0..1] == [disk.sectors[0]];
    OneSector(disk.sectors[0]);
    var buf := new byte[SECTOR](i => if 0 <= i < |sec| then sec[i] else 0);
    if sec[510] != 0x55 || sec[511] != 0xAA {
      forall k | 0 <= k < SECTOR {
        buf[k] := blob[k];
      }
    }
    ghost var was: seq<byte> := if Signed(sec) then sec else blob;
    var i := 0;
    while i < PARTS
      invariant 0 <= i <= PARTS && disk.sectors == old(disk.sectors)
      invariant forall k | 0 <= k < TABLE :: buf[k] == was[k]
      invariant forall j, k | 0 <= j < i && 0 <= k < ENTRY :: buf[TABLE + j * ENTRY + k] == EntryBytes(parts[j])[k]
    {
      var e := EntryBytes(parts[i]);
      forall k | 0 <= k < ENTRY {
        buf[TABLE + i * ENTRY + k] := e[k];
      }
      i := i + 1;
    }
    buf[510], buf[511] := 0x55, 0xAA;
    TableWritten(buf[..], was, parts);
    WriteSector(disk, 0, buf[..]);
  }

  lemma TableWritten(b: Sector, was: Sector, parts: seq<Part>)
    requires |parts| == PARTS && b[510] == 0x55 && b[511] == 0xAA && forall k | 0 <= k < TABLE :: b[k] == was[k]
    requires forall j, k | 0 <= j < PARTS && 0 <= k < ENTRY :: b[TABLE + j * ENTRY + k] == EntryBytes(parts[j])[k]
    ensures Encoded(b, was, parts)
  {
    hide EntryBytes;
  }

  method MbrCreate(disk: Disk, slot: int, kind: byte, start: u32, count: u32, active: bool, blob: Sector)
    returns (code: int)
    requires disk.reliable && |disk.sectors| > 0
    modifies disk
    ensures |disk.sectors| == |old(disk.sectors)| && disk.sectors == old(disk.sectors)[0 := disk.sectors[0]]
    ensures var was := old(disk.sectors)[0];
      var ps := TableOf(was);
      && code == (if slot < 0 || slot >= PARTS then -1 else if ps[slot].kind != 0 then -2 else 0)
      && (code == 0 ==> Encoded(disk.sectors[0], if Signed(was) then was else blob,
                                Created(ps, slot, Part(if active then 0x80 else 0, kind, start, count))))
      && (code != 0 ==> disk.sectors == old(disk.sectors))
  {
    hide Encoded;
    if slot < 0 || slot >= PARTS {
      return -1;
    }
    var ok, p := MbrRead(disk);
    if !ok {
      p := [EMPTY, EMPTY, EMPTY, EMPTY];
    }
    ghost var ps := p;
    if p[slot].kind != 0 {
      return -2;
    }
    p := p[slot := Part(if active then 0x80 else 0, kind, start, count)];
    if active {
      var i := 0;
      while i < PARTS
        invariant 0 <= i <= PARTS && |p| == PARTS && p[slot] == Part(0x80, kind, start, count)
        invariant forall k | 0 <= k < PARTS && k != slot :: p[k] == if k < i then ps[k].(boot := 0) else ps[k]
      {
        if i != slot {
          p := p[i := p[i].(boot := 0)];
        }
        i := i + 1;
      }
    }
    assert p == Created(ps, slot, Part(if active then 0x80 else 0, kind, start, count));
    MbrWrite(disk, p, blob);
    code := 0;
  }

  method MbrDelete(disk: Disk, slot: int, blob: Sector) returns (code: int)
    requires disk.reliable && |disk.sectors| > 0
    modifies disk
    ensures |disk.sectors| == |old(disk.sectors)| && disk.sectors == old(disk.sectors)[0 := disk.sectors[0]]
    ensures var was := old(disk.sectors)[0];
      && (code == 0 <==> 0 <= slot < PARTS && Decode(was).Table?) && (code == 0 || code == -1)
      && (code == 0 ==> Encoded(disk.sectors[0], was, Entries(was)[slot := EMPTY]))
      && (code != 0 ==> disk.sectors == old(disk.sectors))
  {
    hide Encoded;
    if slot < 0 || slot >= PARTS {
      return -1;
    }
    var ok, p := MbrRead(disk);
    if !ok {
      return -1;
    }
    MbrWrite(disk, p[slot := EMPTY], blob);
    code := 0;
  }

  method MbrSetActive(disk: Disk, slot: int, blob: Sector) returns (code: int)
    requires disk.reliable && |disk.sectors| > 0
    modifies disk
    ensures |disk.sectors| == |old(disk.sectors)| && disk.sectors == old(disk.sectors)[0 := disk.sectors[0]]
    ensures var was := old(disk.sectors)[0];
      && (code == 0 <==> 0 <= slot < PARTS && Decode(was).Table? && Entries(was)[slot].kind != 0)
      && (code == 0 || code == -1)
      && (code == 0 ==> Encoded(disk.sectors[0], was, Activated(Entries(was), slot)))
      && (code != 0 ==> disk.sectors == old(disk.sectors))
  {
    hide Encoded;
    if slot < 0 || slot >= PARTS {
      return -1;
    }
    var ok, p := MbrRead(disk);
    if !ok || p[slot].kind == 0 {
      return -1;
    }
    ghost var ps := p;
    var i := 0;
    while i < PARTS
      invariant 0 <= i <= PARTS && |p| == PARTS
      invariant forall k | 0 <= k < PARTS ::
        p[k] == if k < i then ps[k].(boot := if k == slot then 0x80 else 0) else ps[k]
    {
      p := p[i := p[i].(boot := if i == slot then 0x80 else 0)];
      i := i + 1;
    }
    assert p == Activated(ps, slot);
    MbrWrite(disk, p, blob);
    code := 0;
  }

  // ---- the largest free stretch ----

  datatype Span = Span(lo: nat, hi: nat)

  /** No span overlaps [start, start + count). */
  ghost predicate Clear(spans: seq<Span>, start: nat, count: nat) {
    forall i | 0 <= i < |spans| :: start + count <= spans[i].lo || spans[i].hi <= start
  }

  ghost predicate Sorted(spans: seq<Span>) {
    forall i, j | 0 <= i < j < |spans| :: spans[i].lo <= spans[j].lo
  }

  ghost predicate Solid(spans: seq<Span>) {
    forall i | 0 <= i < |spans| :: spans[i].lo < spans[i].hi
  }

  ghost predicate Permuted(a: seq<Span>, b: seq<Span>) { multiset(a) == multiset(b) }

  /** Insertion sort by first sector. */
  method SortSpans(a: array<Span>, n: nat)
    requires n <= a.Length
    modifies a
    ensures Sorted(a[..n]) && Permuted(a[..n], old(a[..n])) && a[n..] == old(a[n..])
  {
    hide Sorted, Permuted;
    var i: nat := 1;
    SortedOne(a[..if n > 0 then 1 else 0]);
    SortedOne(a[..n]);
    while i < n
      invariant 1 <= i && (i <= n ==> Sorted(a[..i])) && (i > n ==> Sorted(a[..n]))
      invariant (n > 0 ==> i <= n) && Permuted(a[..n], old(a[..n])) && a[n..] == old(a[n..])
    {
      ghost var was, rest := a[..n], a[n..];
      InsertSpan(a, i, n);
      PermutedTrans(a[..n], was, old(a[..n]));
      i := i + 1;
    }
  }

  /** Row `i` goes down past all larger ones. */
  method InsertSpan(a: array<Span>, i: nat, ghost n: nat)
    requires i < n <= a.Length && Sorted(a[..i])
    modifies a
    ensures Sorted(a[..i + 1]) && a[n..] == old(a[n..]) && Permuted(a[..n], old(a[..n]))
  {
    hide Sorted, Permuted;
    ghost var was := a[..];
    var s := a[i];
    var j := i - 1;
    while j >= 0 && a[j].lo > s.lo
      invariant -1 <= j < i
      invariant forall k | 0 <= k < a.Length && (k <= j || k > i) :: a[k] == was[k]
      invariant forall k | j + 1 < k <= i :: a[k] == was[k - 1]
      invariant forall k | j < k < i :: was[k].lo > s.lo
    {
      a[j + 1] := a[j];
      j := j - 1;
    }
    a[j + 1] := s;
    ghost var now := a[..];
    assert was[..n][..i] == was[..i] && now[..n][..i + 1] == now[..i + 1];
    Inserted(was[..n], now[..n], i, j + 1);
    assert a[..i + 1] == now[..i + 1] && a[..n] == now[..n] && a[n..] == was[n..];
  }

  lemma SortedOne(a: seq<Span>)
    ensures |a| <= 1 ==> Sorted(a)
    ensures Permuted(a, a)
  {
  }

  lemma PermutedTrans(a: seq<Span>, b: seq<Span>, c: seq<Span>)
    requires Permuted(a, b) && Permuted(b, c)
    ensures Permuted(a, c)
  {
  }

  function Moved(was: seq<Span>, i: nat, p: nat): (now: seq<Span>)
    requires p <= i < |was|
    ensures |now| == |was|
  {
    was[..p] + [was[i]] + was[p..i] + was[i + 1..]
  }

  lemma MovedAt(was: seq<Span>, i: nat, p: nat, k: nat)
    requires p <= i < |was| && k < |was|
    ensures Moved(was, i, p)[k] == if k < p || k > i then was[k] else if k == p then was[i] else was[k - 1]
  {
    var a, b := was[..p] + [was[i]], was[p..i];
    if k < p {
      assert a[k] == was[k];
    } else if p < k <= i {
      assert (a + b)[k] == b[k - p - 1];
    }
  }

  lemma MovedPermutes(was: seq<Span>, i: nat, p: nat)
    requires p <= i < |was|
    ensures Permuted(Moved(was, i, p), was)
  {
    var a, b, c := was[..p], was[p..i], was[i + 1..];
    assert was == a + b + [was[i]] + c;
  }

  /** Row `i` moved down to place `p`, the rows between moved up. */
  lemma Inserted(was: seq<Span>, now: seq<Span>, i: nat, p: nat)
    requires p <= i < |was| == |now| && Sorted(was[..i])
    requires forall k | 0 <= k < |was| ::
      now[k] == if k < p || k > i then was[k] else if k == p then was[i] else was[k - 1]
    requires p > 0 ==> was[p - 1].lo <= was[i].lo
    requires forall k | p <= k < i :: was[k].lo > was[i].lo
    ensures Sorted(now[..i + 1]) && Permuted(now, was)
  {
    hide Moved, Permuted;
    var all := Moved(was, i, p);
    forall k | 0 <= k < |now|
      ensures now[k] == all[k]
    {
      MovedAt(was, i, p, k);
    }
    assert now == all;
    MovedPermutes(was, i, p);
    InOrder(was, i, p);
  }

  lemma InOrder(was: seq<Span>, i: nat, p: nat)
    requires p <= i < |was| && Sorted(was[..i])
    requires p > 0 ==> was[p - 1].lo <= was[i].lo
    requires forall k | p <= k < i :: was[k].lo > was[i].lo
    ensures Sorted(Moved(was, i, p)[..i + 1])
  {
    hide Moved;
    var now := Moved(was, i, p);
    forall j, k | 0 <= j < k < i + 1
      ensures now[j].lo <= now[k].lo
    {
      MovedAt(was, i, p, j);
      MovedAt(was, i, p, k);
      if j == p {
        assert was[k - 1].lo > was[i].lo;
      } else if k == p {
        InHead(was, i, j, p - 1);
      } else {
        InHead(was, i, if j < p then j else j - 1, if k < p then k else k - 1);
      }
    }
  }

  lemma InHead(was: seq<Span>, i: nat, x: nat, y: nat)
    requires i <= |was| && Sorted(was[..i]) && x <= y < i
    ensures was[x].lo <= was[y].lo
  {
    assert was[..i][x] == was[x] && was[..i][y] == was[y];
  }

  /** The widest gap found among the first spans, none of which reaches behind `cursor`. */
  ghost predicate Swept(spans: seq<Span>, i: nat, cursor: nat, best: nat, count: nat)
    requires i <= |spans|
  {
    && (forall k | 0 <= k < i :: spans[k].hi <= cursor)
    && (cursor == 0 || exists k | 0 <= k < i :: spans[k].hi == cursor)
    && (count > 0 ==> Clear(spans, best, count) && exists k | 0 <= k < i :: best + count == spans[k].lo)
    && forall s, c: nat | 0 <= s && c > 0 && s + c <= cursor && Clear(spans[..i], s, c) :: c <= count
  }

  /** One more span: the gap in front of it, if there is one, is all that is new below the cursor. */
  lemma SweepStep(spans: seq<Span>, i: nat, cursor: nat, best: nat, count: nat)
    requires i < |spans| && Sorted(spans) && Solid(spans) && Swept(spans, i, cursor, best, count)
    ensures var x := spans[i];
      var wider := x.lo > cursor && x.lo - cursor > count;
      Swept(spans, i + 1, if x.hi > cursor then x.hi else cursor, if wider then cursor
          else best, if wider then x.lo - cursor else count)
  {
    var x := spans[i];
    var wider := x.lo > cursor && x.lo - cursor > count;
    var next, c1 := if x.hi > cursor then x.hi else cursor, if wider then x.lo - cursor else count;
    if wider {
      forall k | 0 <= k < |spans|
        ensures x.lo <= spans[k].lo || spans[k].hi <= cursor
      {
      }
    }
    var seen := spans[..i + 1];
    forall s, c: nat | 0 <= s && c > 0 && s + c <= next && Clear(seen, s, c)
      ensures c <= c1
    {
      assert Clear(spans[..i], s, c) by {
        assert spans[..i] == seen[..i];
      }
      assert seen[i] == x;
      if s < cursor {
        var k :| 0 <= k < i && spans[k].hi == cursor;
        assert spans[..i][k] == spans[k];
      }
    }
    if next == cursor && cursor != 0 {
      var k :| 0 <= k < i && spans[k].hi == cursor;
      assert 0 <= k < i + 1 && spans[k].hi == next;
    } else if next != cursor {
      assert spans[i].hi == next;
    }
  }

  /** Behind the last span comes the rest of the disk. */
  lemma SweepEnd(spans: seq<Span>, total: nat, cursor: nat, best: nat, count: nat)
    requires Swept(spans, |spans|, cursor, best, count)
    requires forall k | 0 <= k < |spans| :: spans[k].hi <= total || spans[k] == Span(0, ALIGN)
    requires forall k | 0 <= k < |spans| :: spans[k].lo < spans[k].hi
    ensures var wider := total > cursor && total - cursor > count;
      var b, c := if wider then cursor else best, if wider then total - cursor else count;
      && (c > 0 ==> Clear(spans, b, c) && b + c <= total)
      && forall s, d: nat | 0 <= s && d > 0 && s + d <= total && Clear(spans, s, d) :: d <= c
  {
    assert spans[..|spans|] == spans;
    var wider := total > cursor && total - cursor > count;
    var c1 := if wider then total - cursor else count;
    if count > 0 {
      var k :| 0 <= k < |spans| && best + count == spans[k].lo;
    }
    forall s, d: nat | 0 <= s && d > 0 && s + d <= total && Clear(spans, s, d)
      ensures d <= c1
    {
      if s < cursor {
        var k :| 0 <= k < |spans| && spans[k].hi == cursor;
      }
    }
  }

  function SpanOf(p: Part): Span { Span(p.start, p.start + p.count) }

  /** The span is the alignment gap or a partition. */
  ghost predicate Source(ps: seq<Part>, x: Span) {
    x == Span(0, ALIGN) || exists i :: 0 <= i < |ps| && Used(ps[i]) && SpanOf(ps[i]) == x
  }

  ghost predicate Has(spans: seq<Span>, x: Span) { exists k :: 0 <= k < |spans| && spans[k] == x }

  /** The spans to keep clear of: the alignment gap and the partitions. */
  ghost predicate SpansOf(spans: seq<Span>, ps: seq<Part>) {
    && Has(spans, Span(0, ALIGN))
    && (forall i | 0 <= i < |ps| && Used(ps[i]) :: Has(spans, SpanOf(ps[i])))
    && (forall k | 0 <= k < |spans| :: Source(ps, spans[k]))
  }

  lemma ClearIsFree(spans: seq<Span>, ps: seq<Part>, total: nat, s: nat, c: nat)
    requires SpansOf(spans, ps) && c > 0 && s + c <= total
    ensures Clear(spans, s, c) <==> Free(ps, total, s, c)
  {
    if Clear(spans, s, c) {
      forall i | 0 <= i < |ps| && Used(ps[i])
        ensures s + c <= ps[i].start || ps[i].start + ps[i].count <= s
      {
        assert Has(spans, SpanOf(ps[i]));
      }
    }
    if Free(ps, total, s, c) {
      forall k | 0 <= k < |spans|
        ensures s + c <= spans[k].lo || spans[k].hi <= s
      {
        assert Source(ps, spans[k]);
      }
    }
  }

  lemma SortedSpans(a: seq<Span>, b: seq<Span>, ps: seq<Part>)
    requires SpansOf(a, ps) && Permuted(b, a)
    ensures SpansOf(b, ps)
  {
    forall x | Has(a, x)
      ensures Has(b, x)
    {
      assert x in multiset(a);
      assert x in b;
    }
    forall k | 0 <= k < |b|
      ensures Source(ps, b[k])
    {
      assert b[k] in multiset(b);
      assert b[k] in a;
    }
  }

  /** The longest stretch behind the alignment gap that no partition touches, for any table, entries in any order and
      even overlapping; failure exactly if there is none. */
  method MbrLargestFree(disk: Disk) returns (ok: bool, start: nat, count: nat)
    requires disk.reliable && 0 < |disk.sectors| < WORD
    requires forall i | 0 <= i < PARTS && Used(TableOf(disk.sectors[0])[i]) ::
      var p := TableOf(disk.sectors[0])[i]; p.start + p.count <= |disk.sectors|
    ensures var ps, total := TableOf(disk.sectors[0]), |disk.sectors|;
      && (ok <==> count > 0)
      && (ok ==> Free(ps, total, start, count))
      && forall s, c: nat | c > 0 && Free(ps, total, s, c) :: c <= count
  {
    hide Decode, Entries, SpansOf, Sorted, Permuted;
    var total := |disk.sectors|;
    var has, pt := MbrRead(disk);
    DecodedEntries(disk.sectors[0]);
    if !has {
      start := ALIGN;
      count := if total > ALIGN then total - ALIGN else 0;
      return count > 0, start, count;
    }
    var spans := new Span[PARTS + 2](_ => Span(0, 0));
    var n := FillSpans(spans, pt);
    ghost var before := spans[..n];
    SortSpans(spans, n);
    SortedSpans(before, spans[..n], pt);
    start, count := WidestGap(spans, n, pt, total);
    ok := count > 0;
  }

  lemma DecodedEntries(b: Sector)
    ensures Decode(b).Table? ==> TableOf(b) == Entries(b)
    ensures Decode(b).NoTable? ==> TableOf(b) == [EMPTY, EMPTY, EMPTY, EMPTY]
  {
  }

  method FillSpans(spans: array<Span>, pt: seq<Part>) returns (n: nat)
    requires spans.Length == PARTS + 2 && |pt| == PARTS
    modifies spans
    ensures 1 <= n <= PARTS + 1 && SpansOf(spans[..n], pt)
  {
    hide Has, Source;
    spans[0] := Span(0, ALIGN);
    n := 1;
    NoSpans(spans[..n], pt[..0]);
    hide SpansOf;
    var i := 0;
    while i < PARTS
      invariant 0 <= i <= PARTS && 1 <= n <= i + 1 && SpansOf(spans[..n], pt[..i])
    {
      ghost var was := spans[..n];
      if pt[i].kind != 0 && pt[i].count != 0 {
        spans[n] := Span(pt[i].start, pt[i].start + pt[i].count);
        n := n + 1;
        assert spans[..n] == was + [Span(pt[i].start, pt[i].start + pt[i].count)];
      }
      OneMoreSpan(was, pt, i);
      i := i + 1;
    }
    assert pt[..i] == pt;
  }

  lemma NoSpans(spans: seq<Span>, ps: seq<Part>)
    requires spans == [Span(0, ALIGN)] && ps == []
    ensures SpansOf(spans, ps)
  {
    assert spans[0] == Span(0, ALIGN);
  }

  lemma HasMore(spans: seq<Span>, y: Span, x: Span)
    ensures Has(spans, x) || x == y ==> Has(spans + [y], x)
  {
    if Has(spans, x) {
      var k :| 0 <= k < |spans| && spans[k] == x;
      assert (spans + [y])[k] == x;
    } else {
      assert (spans + [y])[|spans|] == y;
    }
  }

  lemma SourceMore(ps: seq<Part>, i: nat, x: Span)
    requires i < |ps|
    ensures Source(ps[..i], x) ==> Source(ps[..i + 1], x)
    ensures Used(ps[i]) ==> Source(ps[..i + 1], SpanOf(ps[i]))
  {
    if Source(ps[..i], x) && x != Span(0, ALIGN) {
      var k :| 0 <= k < i && Used(ps[..i][k]) && SpanOf(ps[..i][k]) == x;
      assert ps[..i + 1][k] == ps[..i][k];
    }
    assert ps[..i + 1][i] == ps[i];
  }

  lemma OneMoreSpan(was: seq<Span>, pt: seq<Part>, i: nat)
    requires i < |pt| && SpansOf(was, pt[..i])
    ensures SpansOf(if Used(pt[i]) then was + [SpanOf(pt[i])] else was, pt[..i + 1])
  {
    hide Has, Source;
    var qs := pt[..i + 1];
    var now := if Used(pt[i]) then was + [SpanOf(pt[i])] else was;
    forall k | 0 <= k < |qs| && Used(qs[k])
      ensures Has(now, SpanOf(qs[k]))
    {
      if k < i { assert pt[..i][k] == qs[k]; }
      HasMore(was, SpanOf(pt[i]), SpanOf(qs[k]));
    }
    HasMore(was, SpanOf(pt[i]), Span(0, ALIGN));
    forall k | 0 <= k < |now|
      ensures Source(qs, now[k])
    {
      SourceMore(pt, i, now[k]);
    }
  }

  method WidestGap(spans: array<Span>, n: nat, ghost ps: seq<Part>, total: nat) returns (best: nat, count: nat)
    requires 1 <= n <= spans.Length && Sorted(spans[..n]) && SpansOf(spans[..n], ps)
    requires forall i | 0 <= i < |ps| && Used(ps[i]) :: ps[i].start + ps[i].count <= total
    ensures count > 0 ==> Free(ps, total, best, count)
    ensures forall s, c: nat | c > 0 && Free(ps, total, s, c) :: c <= count
  {
    ghost var all := spans[..n];
    SpansSolid(all, ps, total);
    hide Sorted, SpansOf, Swept, Solid, Free;
    var cursor: nat := 0;
    best, count := 0, 0;
    SweepStart(all);
    var i: nat := 0;
    while i < n
      invariant i <= n && Swept(all, i, cursor, best, count)
    {
      SweepStep(all, i, cursor, best, count);
      if spans[i].lo > cursor && spans[i].lo - cursor > count {
        best, count := cursor, spans[i].lo - cursor;
      }
      if spans[i].hi > cursor {
        cursor := spans[i].hi;
      }
      i := i + 1;
    }
    GapsAreFree(all, ps, total, cursor, best, count);
    if total > cursor && total - cursor > count {
      best, count := cursor, total - cursor;
    }
  }

  lemma SweepStart(spans: seq<Span>)
    ensures Swept(spans, 0, 0, 0, 0)
  {
  }

  lemma SpansSolid(spans: seq<Span>, ps: seq<Part>, total: nat)
    requires SpansOf(spans, ps)
    requires forall i | 0 <= i < |ps| && Used(ps[i]) :: ps[i].start + ps[i].count <= total
    ensures Solid(spans) && forall k | 0 <= k < |spans| :: spans[k].hi <= total || spans[k] == Span(0, ALIGN)
  {
  }

  lemma GapsAreFree(spans: seq<Span>, ps: seq<Part>, total: nat, cursor: nat, best: nat, count: nat)
    requires SpansOf(spans, ps) && Solid(spans) && Swept(spans, |spans|, cursor, best, count)
    requires forall k | 0 <= k < |spans| :: spans[k].hi <= total || spans[k] == Span(0, ALIGN)
    ensures var wider := total > cursor && total - cursor > count;
      var b, c := if wider then cursor else best, if wider then total - cursor else count;
      && (c > 0 ==> Free(ps, total, b, c))
      && forall s, d: nat | d > 0 && Free(ps, total, s, d) :: d <= c
  {
    SweepEnd(spans, total, cursor, best, count);
    hide SpansOf, Swept, Solid, Clear, Free;
    var wider := total > cursor && total - cursor > count;
    var b, c := if wider then cursor else best, if wider then total - cursor else count;
    if c > 0 {
      ClearIsFree(spans, ps, total, b, c);
    }
    forall s, d: nat | d > 0 && Free(ps, total, s, d)
      ensures d <= c
    {
      FreeFits(ps, total, s, d);
      ClearIsFree(spans, ps, total, s, d);
    }
  }

  lemma FreeFits(ps: seq<Part>, total: nat, s: nat, c: nat)
    requires Free(ps, total, s, c)
    ensures s + c <= total
  {
  }
}
