/** Runs of partition edits, and the view-disks through which partitions are used. */
module MbrRuns {
  import opened Bytes
  import opened Disks
  import opened MbrTables
  import opened Mbr

  /** Edits of a table: a partition at the largest free stretch (if it is as long as wanted), deletion, the active
      mark. */
  datatype Edit = CreateAtGap(slot: int, kind: byte, count: u32, active: bool) | Delete(slot: int) | Activate(slot: int)

  ghost predicate Good(b: Sector, total: nat) {
    Signed(b) && Valid(Entries(b), total)
  }

  /** Boot code is what lies in front of the table. */
  ghost predicate SameCode(b: Sector, was: Sector) {
    forall k | 0 <= k < TABLE :: b[k] == was[k]
  }

  /** A longest free stretch. */
  ghost predicate Widest(ps: seq<Part>, total: nat, start: nat, room: nat) {
    room > 0 && Free(ps, total, start, room) && forall s, c: nat | c > 0 && Free(ps, total, s, c) :: c <= room
  }

  function Tidied(ps: seq<Part>): seq<Part>
    requires |ps| == PARTS
  {
    [Tidy(ps[0]), Tidy(ps[1]), Tidy(ps[2]), Tidy(ps[3])]
  }

  /** What an edit does to the entries callers see; one that is refused does nothing. */
  ghost predicate Edited(ps: seq<Part>, qs: seq<Part>, total: nat, e: Edit)
    requires |ps| == PARTS
  {
    match e
    case CreateAtGap(slot, kind, count, active) =>
      if 0 <= slot < PARTS && ps[slot].kind == 0 && exists s, c: nat :: c >= count && Widest(ps, total, s, c) then
        exists s: u32, c: nat :: Widest(ps, total, s, c) && qs == Tidied(Created(ps, slot, Part(if active then 0x80
            else 0, kind, s, count)))
      else qs == ps
    case Delete(slot) => qs == if 0 <= slot < PARTS then Tidied(ps[slot := EMPTY]) else ps
    case Activate(slot) => qs == if 0 <= slot < PARTS && ps[slot].kind != 0 then Tidied(Activated(ps, slot)) else ps
  }

  lemma EncodedGood(b: Sector, was: Sector, ps: seq<Part>, total: nat)
    requires |ps| == PARTS && Encoded(b, was, ps) && Valid(ps, total)
    ensures Good(b, total) && SameCode(b, was) && TableOf(b) == Tidied(ps)
  {
    hide EntryBytes;
    TableBack(b, was, ps);
    TidyKeepsValid(ps, total);
    hide Encoded, Decode, Entries;
    DecodedEntries(b);
    ValidPlausible(ps, total);
  }

  lemma ValidPlausible(ps: seq<Part>, total: nat)
    requires Valid(ps, total)
    ensures (forall i | 0 <= i < PARTS :: !Plausible(ps[i])) ==> Tidied(ps) == [EMPTY, EMPTY, EMPTY, EMPTY]
  {
  }

  /** The entries callers see of a good table are valid, and inside the disk. */
  lemma GoodTable(b: Sector, total: nat)
    requires Good(b, total)
    ensures Valid(TableOf(b), total)
    ensures if Decode(b).Table? then TableOf(b) == Entries(b) else TableOf(b) == [EMPTY, EMPTY, EMPTY, EMPTY]
    ensures forall i | 0 <= i < PARTS && Used(TableOf(b)[i]) :: TableOf(b)[i].start + TableOf(b)[i].count <= total
  {
    hide Decode, Entries;
    DecodedEntries(b);
  }

  /** One edit, done or refused. */
  method DoEdit(disk: Disk, e: Edit, blob: Sector)
    requires disk.reliable && 0 < |disk.sectors| < WORD && Good(disk.sectors[0], |disk.sectors|)
    requires e.CreateAtGap? ==> e.kind != 0 && e.count > 0
    modifies disk
    ensures |disk.sectors| == |old(disk.sectors)| && disk.sectors == old(disk.sectors)[0 := disk.sectors[0]]
    ensures Good(disk.sectors[0], |disk.sectors|) && SameCode(disk.sectors[0], old(disk.sectors)[0])
    ensures Edited(TableOf(old(disk.sectors)[0]), TableOf(disk.sectors[0]), |disk.sectors|, e)
  {
    hide Encoded, Decode, Entries, Valid, Free, Created, Activated, Tidied, Good, TableOf;
    ghost var was, total := disk.sectors[0], |disk.sectors|;
    GoodTable(was, total);
    ghost var ps := TableOf(was);
    GoodIsTable(was, total);
    match e
    case CreateAtGap(slot, kind, count, active) =>
      var ok, start, room := MbrLargestFree(disk);
      if !ok || room < count {
        return;
      }
      FreeInside(ps, total, start, room);
      assert Widest(ps, total, start, room);
      var p := Part(if active then 0x80 else 0, kind, start, count);
      var code := MbrCreate(disk, slot, kind, start, count, active, blob);
      if code == 0 {
        ShorterFree(ps, total, start, room, count);
        CreateKeepsValid(ps, total, slot, p);
        EncodedGood(disk.sectors[0], was, Created(ps, slot, p), total);
      }
    case Delete(slot) =>
      var code := MbrDelete(disk, slot, blob);
      if code == 0 {
        DeleteKeepsValid(ps, total, slot);
        EncodedGood(disk.sectors[0], was, ps[slot := EMPTY], total);
      } else if 0 <= slot < PARTS {
        DeleteBlank(ps, slot);
      }
    case Activate(slot) =>
      var code := MbrSetActive(disk, slot, blob);
      if code == 0 {
        ActivateKeepsValid(ps, total, slot);
        EncodedGood(disk.sectors[0], was, Activated(ps, slot), total);
      }
  }

  lemma FreeInside(ps: seq<Part>, total: nat, start: nat, room: nat)
    requires Free(ps, total, start, room) && room > 0
    ensures start < total
  {
  }

  lemma DeleteBlank(ps: seq<Part>, slot: nat)
    requires ps == [EMPTY, EMPTY, EMPTY, EMPTY] && slot < PARTS
    ensures Tidied(ps[slot := EMPTY]) == ps
  {
    assert ps[slot := EMPTY] == ps;
  }

  lemma GoodIsTable(b: Sector, total: nat)
    requires Good(b, total)
    ensures Signed(b) && Valid(Entries(b), total) && SameCode(b, b)
  {
  }

  lemma ShorterFree(ps: seq<Part>, total: nat, start: nat, room: nat, count: nat)
    requires Free(ps, total, start, room) && count <= room
    ensures Free(ps, total, start, count)
  {
  }

  /** Any run of edits keeps partitions disjoint and inside the disk, at most one active, and the boot code as it was;
      `tables` is what callers see before each edit and at the end. */
  method RunEdits(disk: Disk, edits: seq<Edit>, blob: Sector) returns (ghost tables: seq<seq<Part>>)
    requires disk.reliable && 0 < |disk.sectors| < WORD && Good(disk.sectors[0], |disk.sectors|)
    requires forall i | 0 <= i < |edits| && edits[i].CreateAtGap? :: edits[i].kind != 0 && edits[i].count > 0
    modifies disk
    ensures |disk.sectors| == |old(disk.sectors)| && disk.sectors == old(disk.sectors)[0 := disk.sectors[0]]
    ensures Good(disk.sectors[0], |disk.sectors|) && SameCode(disk.sectors[0], old(disk.sectors)[0])
    ensures Traced(tables, edits, |disk.sectors|) && tables[0] == TableOf(old(disk.sectors)[0])
    ensures tables[|edits|] == TableOf(disk.sectors[0])
  {
    hide Good, Edited, Valid, TableOf;
    GoodTable(disk.sectors[0], |disk.sectors|);
    tables := [TableOf(disk.sectors[0])];
    assert edits[..0] == [];
    var i := 0;
    while i < |edits|
      invariant 0 <= i <= |edits| && |disk.sectors| == |old(disk.sectors)|
      invariant disk.sectors == old(disk.sectors)[0 := disk.sectors[0]]
      invariant Good(disk.sectors[0], |disk.sectors|) && SameCode(disk.sectors[0], old(disk.sectors)[0])
      invariant Traced(tables, edits[..i], |disk.sectors|)
      invariant tables[0] == TableOf(old(disk.sectors)[0]) && tables[i] == TableOf(disk.sectors[0])
    {
      DoEdit(disk, edits[i], blob);
      GoodTable(disk.sectors[0], |disk.sectors|);
      tables := tables + [TableOf(disk.sectors[0])];
      i := i + 1;
    }
    assert edits[..i] == edits;
  }

  /** Every table is valid, and each edit leads from one to the next. */
  ghost predicate Traced(tables: seq<seq<Part>>, edits: seq<Edit>, total: nat) {
    && |tables| == |edits| + 1 && (forall i | 0 <= i < |tables| :: Valid(tables[i], total) && |tables[i]| == PARTS)
    && forall i | 0 <= i < |edits| :: Edited(tables[i], tables[i + 1], total, edits[i])
  }

  // ---- views ----

  const VIEW_SLOTS := 16

  datatype View = View(parent: nat, part: nat, offset: u32, count: u32)

  function Wrap(x: int): u32 { x % WORD }

  /** What registration checks, in 32-bit arithmetic. */
  predicate Accepted(p: Part, total: nat) {
    Used(p) && 0 < p.start < total && Wrap(p.start + p.count) <= total
  }

  /** The views of the entries of one disk from entry `i` on. */
  function EntryViews(parent: nat, ps: seq<Part>, total: nat, i: nat): seq<View>
    requires |ps| == PARTS
    decreases PARTS - i
  {
    if i >= PARTS then []
    else (if Accepted(ps[i], total) then [View(parent, i, ps[i].start, ps[i].count)] else []) + EntryViews(parent, ps,
        total, i + 1)
  }

  /** The views of disk `parent` with the sectors `ss`; disks without a table, and very small ones, have none. */
  function DiskViews(parent: nat, ss: seq<Sector>): seq<View> {
    if |ss| < 2048 || Decode(ss[0]).NoTable? then [] else EntryViews(parent, Entries(ss[0]), |ss|, 0)
  }

  function AllViews(disks: seq<seq<Sector>>, parent: nat): seq<View>
    decreases |disks| - parent
  {
    if parent >= |disks| then [] else DiskViews(parent, disks[parent]) + AllViews(disks, parent + 1)
  }

  function UpTo(vs: seq<View>, n: nat): seq<View> { if |vs| <= n then vs else vs[..n] }

  ghost predicate Reliable(raws: seq<Disk>) {
    && (forall i | 0 <= i < |raws| :: raws[i].reliable)
    && forall i, j | 0 <= i < j < |raws| :: raws[i] != raws[j]
  }

  ghost function Contents(raws: seq<Disk>): (ss: seq<seq<Sector>>)
    reads raws
    ensures |ss| == |raws| && forall i | 0 <= i < |raws| :: ss[i] == raws[i].sectors
  {
    seq(|raws|, i requires 0 <= i < |raws| reads raws => raws[i].sectors)
  }

  method RegisterView(views: seq<View>, parent: nat, part: nat, p: Part, total: nat) returns (out: seq<View>)
    requires |views| <= VIEW_SLOTS && Used(p)
    ensures out == UpTo(views + if Accepted(p, total) then [View(parent, part, p.start, p.count)] else [], VIEW_SLOTS)
  {
    out := views;
    assert views + [] == views;
    if |views| >= VIEW_SLOTS {
      assert (views + [View(parent, part, p.start, p.count)])[..VIEW_SLOTS] == views;
      return;
    }
    if p.start == 0 || p.start >= total || p.count == 0 || Wrap(p.start + p.count) > total {
      return;
    }
    out := views + [View(parent, part, p.start, p.count)];
  }

  lemma UpToMore(a: seq<View>, b: seq<View>, n: nat)
    ensures UpTo(UpTo(a, n) + b, n) == UpTo(a + b, n)
  {
    if |a| > n {
      assert (a[..n] + b)[..n] == a[..n] == (a + b)[..n];
    }
  }

  /** Views of all partitions of all disks, in order, as long as there are slots. */
  method ScanAll(raws: seq<Disk>) returns (views: seq<View>)
    requires Reliable(raws)
    ensures views == UpTo(AllViews(Contents(raws), 0), 16)
  {
    hide Decode, Entries, EntryViews, UpTo;
    views := [];
    ghost var disks, all := Contents(raws), AllViews(Contents(raws), 0);
    UpToNone();
    assert [] + all == all;
    ghost var done: seq<View> := [];
    var parent := 0;
    while parent < |raws|
      invariant 0 <= parent <= |raws| && |views| <= VIEW_SLOTS
      invariant views == UpTo(done, VIEW_SLOTS) && all == done + AllViews(disks, parent)
    {
      var d := raws[parent];
      ghost var mine := DiskViews(parent, d.sectors);
      if |d.sectors| >= ALIGN {
        var has, pt := MbrRead(d);
        if has {
          views := ScanEntries(views, parent, pt, |d.sectors|, done);
        } else {
          assert done + [] == done;
        }
      } else {
        assert done + [] == done;
      }
      assert done + (mine + AllViews(disks, parent + 1)) == done + mine + AllViews(disks, parent + 1);
      done := done + mine;
      UpToShort(done);
      parent := parent + 1;
    }
    assert done + [] == done;
  }

  lemma UpToNone()
    ensures UpTo([], VIEW_SLOTS) == []
  {
  }

  lemma UpToShort(a: seq<View>)
    ensures |UpTo(a, VIEW_SLOTS)| <= VIEW_SLOTS
  {
  }

  lemma EntryViewsStep(parent: nat, ps: seq<Part>, total: nat, i: nat)
    requires |ps| == PARTS && i < PARTS
    ensures EntryViews(parent, ps, total, i)
         == (if Accepted(ps[i], total) then [View(parent, i, ps[i].start, ps[i].count)]
             else []) + EntryViews(parent, ps, total, i + 1)
  {
  }

  lemma EntryViewsEnd(parent: nat, ps: seq<Part>, total: nat)
    requires |ps| == PARTS
    ensures EntryViews(parent, ps, total, PARTS) == []
  {
  }

  lemma Associate<T>(a: seq<T>, b: seq<T>, c: seq<T>)
    ensures a + (b + c) == a + b + c
  {
  }

  method ScanEntries(views: seq<View>, parent: nat, pt: seq<Part>, total: nat, ghost done: seq<View>)
    returns (out: seq<View>)
    requires |pt| == PARTS && |views| <= VIEW_SLOTS && views == UpTo(done, VIEW_SLOTS)
    ensures out == UpTo(done + EntryViews(parent, pt, total, 0), VIEW_SLOTS)
  {
    hide UpTo, EntryViews;
    EntryViewsEnd(parent, pt, total);
    out := views;
    ghost var before := done;
    ghost var all := done + EntryViews(parent, pt, total, 0);
    var i := 0;
    while i < PARTS
      invariant 0 <= i <= PARTS && |out| <= VIEW_SLOTS && out == UpTo(before, VIEW_SLOTS)
      invariant all == before + EntryViews(parent, pt, total, i)
    {
      ghost var one := if Accepted(pt[i], total) then [View(parent, i, pt[i].start, pt[i].count)] else [];
      if pt[i].kind != 0 && pt[i].count != 0 {
        out := RegisterView(out, parent, i, pt[i], total);
        UpToMore(before, one, VIEW_SLOTS);
      } else {
        assert before + one == before;
      }
      EntryViewsStep(parent, pt, total, i);
      Associate(before, one, EntryViews(parent, pt, total, i + 1));
      before := before + one;
      UpToShort(before);
      i := i + 1;
    }
    assert before + [] == before;
  }

  // ---- isolation ----

  /** Views of one disk that share no sector, and lie inside it. */
  ghost predicate Isolated(views: seq<View>, disks: seq<seq<Sector>>) {
    && (forall i | 0 <= i < |views| ::
          views[i].parent < |disks| && views[i].offset + views[i].count <= |disks[views[i].parent]|)
    && (forall i, j | 0 <= i < j < |views| && views[i].parent == views[j].parent ::
          views[i].offset + views[i].count <= views[j].offset || views[j].offset + views[j].count <= views[i].offset)
  }

  ghost predicate AllGood(disks: seq<seq<Sector>>) {
    forall d | 0 <= d < |disks| :: |disks[d]| < WORD && (|disks[d]| > 0 ==> Good(disks[d][0], |disks[d]|))
  }

  /** The view comes from entry `part` of its disk. */
  ghost predicate FromEntry(v: View, disks: seq<seq<Sector>>) {
    && v.parent < |disks| && |disks[v.parent]| >= ALIGN && v.part < PARTS
    && var p := Entries(disks[v.parent][0])[v.part];
       Used(p) && v.offset == p.start && v.count == p.count
  }

  /** Views in order of their disks and entries. */
  ghost predicate Ordered(vs: seq<View>) {
    forall i, j | 0 <= i < j < |vs| ::
      vs[i].parent < vs[j].parent || (vs[i].parent == vs[j].parent && vs[i].part < vs[j].part)
  }

  ghost predicate Proper(vs: seq<View>, disks: seq<seq<Sector>>, parent: nat) {
    Ordered(vs) && forall k | 0 <= k < |vs| :: FromEntry(vs[k], disks) && vs[k].parent >= parent
  }

  lemma ProperJoin(a: seq<View>, b: seq<View>, disks: seq<seq<Sector>>, parent: nat)
    requires Proper(a, disks, parent) && Proper(b, disks, parent + 1)
    requires forall k | 0 <= k < |a| :: a[k].parent == parent
    ensures Proper(a + b, disks, parent)
  {
    hide FromEntry;
  }

  lemma {:induction false} EntryViewsAre(parent: nat, disks: seq<seq<Sector>>, i: nat)
    requires parent < |disks| && |disks[parent]| >= ALIGN
    ensures OfDisk(EntryViews(parent, Entries(disks[parent][0]), |disks[parent]|, i), disks, parent, i)
    decreases PARTS - i
  {
    hide Entries, OfDisk, EntryViews;
    var ps, total := Entries(disks[parent][0]), |disks[parent]|;
    if i < PARTS {
      EntryViewsAre(parent, disks, i + 1);
      EntryViewsStep(parent, ps, total, i);
      OneView(EntryViews(parent, ps, total, i + 1), disks, parent, i);
    } else {
      NoViews(parent, ps, total, i, disks);
    }
  }

  lemma NoViews(parent: nat, ps: seq<Part>, total: nat, i: nat, disks: seq<seq<Sector>>)
    requires |ps| == PARTS && i >= PARTS
    ensures OfDisk(EntryViews(parent, ps, total, i), disks, parent, i)
  {
  }

  /** Views of one disk, from entry `i` on. */
  ghost predicate OfDisk(vs: seq<View>, disks: seq<seq<Sector>>, parent: nat, i: nat) {
    Ordered(vs) && forall k | 0 <= k < |vs| :: FromEntry(vs[k], disks) && vs[k].parent == parent && vs[k].part >= i
  }

  lemma OneView(vs: seq<View>, disks: seq<seq<Sector>>, parent: nat, i: nat)
    requires parent < |disks| && |disks[parent]| >= ALIGN && i < PARTS && OfDisk(vs, disks, parent, i + 1)
    ensures var p := Entries(disks[parent][0])[i];
      OfDisk((if Accepted(p, |disks[parent]|) then [View(parent, i, p.start, p.count)] else []) + vs, disks, parent, i)
  {
    hide Entries;
    var p := Entries(disks[parent][0])[i];
    assert Accepted(p, |disks[parent]|) ==> FromEntry(View(parent, i, p.start, p.count), disks);
    assert [] + vs == vs;
  }

  lemma {:induction false} AllViewsAre(disks: seq<seq<Sector>>, parent: nat)
    ensures Proper(AllViews(disks, parent), disks, parent)
    decreases |disks| - parent
  {
    hide Entries, Decode, EntryViews, FromEntry;
    if parent < |disks| {
      AllViewsAre(disks, parent + 1);
      if |disks[parent]| >= ALIGN {
        EntryViewsAre(parent, disks, 0);
      }
      assert Proper(DiskViews(parent, disks[parent]), disks, parent);
      ProperJoin(DiskViews(parent, disks[parent]), AllViews(disks, parent + 1), disks, parent);
    }
  }

  lemma FirstViews(vs: seq<View>, n: nat, disks: seq<seq<Sector>>)
    requires Ordered(vs) && forall k | 0 <= k < |vs| :: FromEntry(vs[k], disks)
    ensures Ordered(UpTo(vs, n)) && forall k | 0 <= k < |UpTo(vs, n)| :: FromEntry(UpTo(vs, n)[k], disks)
  {
    hide FromEntry;
  }

  /** On disks whose tables are valid, the views found by a scan are isolated from each other. */
  lemma ScanIsolates(disks: seq<seq<Sector>>)
    requires AllGood(disks)
    ensures Isolated(UpTo(AllViews(disks, 0), VIEW_SLOTS), disks)
  {
    hide AllViews, UpTo;
    AllViewsAre(disks, 0);
    FirstViews(AllViews(disks, 0), VIEW_SLOTS, disks);
    var vs := UpTo(AllViews(disks, 0), VIEW_SLOTS);
    forall i | 0 <= i < |vs|
      ensures vs[i].parent < |disks| && vs[i].offset + vs[i].count <= |disks[vs[i].parent]|
    {
      ViewInside(vs[i], disks);
    }
    forall i, j | 0 <= i < j < |vs| && vs[i].parent == vs[j].parent
      ensures vs[i].offset + vs[i].count <= vs[j].offset || vs[j].offset + vs[j].count <= vs[i].offset
    {
      assert vs[i].part < vs[j].part;
      ViewsApart(vs[i], vs[j], disks);
    }
  }

  lemma ViewInside(v: View, disks: seq<seq<Sector>>)
    requires AllGood(disks) && FromEntry(v, disks)
    ensures v.parent < |disks| && v.offset + v.count <= |disks[v.parent]|
  {
    hide Entries;
  }

  lemma ViewsApart(v: View, w: View, disks: seq<seq<Sector>>)
    requires AllGood(disks) && FromEntry(v, disks) && FromEntry(w, disks) && v.parent == w.parent && v.part < w.part
    ensures v.offset + v.count <= w.offset || w.offset + w.count <= v.offset
  {
    hide Entries;
    var ps := Entries(disks[v.parent][0]);
    assert Apart(ps[v.part], ps[w.part]);
  }

  /** What a view holds. */
  ghost function Held(v: View, disks: seq<seq<Sector>>): (h: seq<Sector>)
    requires v.parent < |disks| && v.offset + v.count <= |disks[v.parent]|
    ensures |h| == v.count
  {
    disks[v.parent][v.offset..v.offset + v.count]
  }

  /** The bounds check of a view, in 32-bit arithmetic. */
  predicate Passes(v: View, lba: u32, count: u32) { Wrap(lba + count) <= v.count }

  /** The sector of the disk below at which a request begins. */
  function Below(v: View, lba: u32): u32 { Wrap(v.offset + lba) }

  /** A request that passes the check touches sectors of the view only, and those it names, exactly if its end fits 32
      bits. Otherwise it begins in front of the view, or past the end of every disk. */
  lemma InsideUnlessWrapped(v: View, lba: u32, count: u32)
    requires Passes(v, lba, count) && count > 0 && v.offset + v.count < WORD
    ensures lba + count < WORD <==> lba + count <= v.count
    ensures lba + count < WORD <==> v.offset <= Below(v, lba) && Below(v, lba) + count <= v.offset + v.count
    ensures lba + count < WORD ==> Below(v, lba) == v.offset + lba
  {
  }

  /** Such a request exists for every view: two sectors, the first of them in front of it. */
  lemma WrappedPasses(v: View)
    requires 0 < v.offset && v.offset + v.count < WORD && v.count > 0
    ensures var lba, count := WORD - 1, 2;
            Passes(v, lba, count) && lba + count > v.count && Below(v, lba) == v.offset - 1
  {
  }

  /** Reads what lies at the place on the disk below, for requests that pass the check and end on that disk: what the
      view holds, unless the end of the request wraps. */
  method PartRead(raws: seq<Disk>, v: View, lba: u32, count: u32) returns (ok: bool, buf: seq<byte>)
    requires Reliable(raws) && v.parent < |raws| && v.offset + v.count <= |raws[v.parent].sectors| < WORD
    ensures ok <==> Passes(v, lba, count) && Below(v, lba) + count <= |raws[v.parent].sectors|
    ensures ok ==> buf == Join(raws[v.parent].sectors[Below(v, lba)..Below(v, lba) + count])
    ensures lba + count < WORD ==> (ok <==> lba + count <= v.count)
    ensures lba + count < WORD && ok ==> buf == Join(Held(v, Contents(raws))[lba..lba + count])
  {
    hide Join, Held, Wrap;
    if lba + count < WORD { Unwrapped(v, lba, count); }
    if Wrap(lba + count) > v.count {
      return false, [];
    }
    ok, buf := raws[v.parent].Read(Wrap(v.offset + lba), count);
    if lba + count < WORD { HeldSlice(v, Contents(raws), lba, count); }
  }

  lemma Unwrapped(v: View, lba: u32, count: u32)
    requires lba + count < WORD && v.offset + v.count < WORD
    ensures Passes(v, lba, count) <==> lba + count <= v.count
    ensures lba + count <= v.count ==> Below(v, lba) == v.offset + lba
  {
  }

  lemma HeldSlice(v: View, disks: seq<seq<Sector>>, a: nat, k: nat)
    requires v.parent < |disks| && v.offset + v.count <= |disks[v.parent]| && a + k <= v.count
    ensures Held(v, disks)[a..a + k] == disks[v.parent][v.offset + a..v.offset + a + k]
  {
    SliceOfSlice(disks[v.parent], v.offset, v.count, a, k);
  }

  lemma SliceOfSlice<T>(s: seq<T>, o: nat, n: nat, a: nat, k: nat)
    requires o + n <= |s|
    ensures a + k <= n ==> s[o..o + n][a..a + k] == s[o + a..o + a + k]
  {
    if a + k <= n {
      var x, y := s[o..o + n][a..a + k], s[o + a..o + a + k];
      assert forall i | 0 <= i < k :: x[i] == y[i];
    }
  }

  /** A write changes what lies at its place on the disk below, if it passes the check and ends on that disk. Unless
      its end wraps, this shows in its view where it should, and in no other view at all. */
  method PartWrite(raws: seq<Disk>, views: seq<View>, i: nat, lba: u32, count: u32, buf: seq<byte>) returns (ok: bool)
    requires Reliable(raws) && Isolated(views, Contents(raws)) && i < |views| && |buf| == count * SECTOR
    requires forall d | 0 <= d < |raws| :: |raws[d].sectors| < WORD
    modifies raws
    ensures forall d | 0 <= d < |raws| :: |raws[d].sectors| == |old(raws[d].sectors)|
    ensures var v := views[i];
      && (ok <==> Passes(v, lba, count) && Below(v, lba) + count <= |old(raws[v.parent].sectors)|)
      && Contents(raws) == if ok then Patched(old(Contents(raws)), v.parent, Below(v, lba), Cut(buf))
                           else old(Contents(raws))
    ensures lba + count < WORD ==>
      && (ok <==> lba + count <= views[i].count)
      && Held(views[i], Contents(raws))
         == (if ok then Splice(Held(views[i], old(Contents(raws))), lba, Cut(buf))
             else Held(views[i], old(Contents(raws))))
      && forall j | 0 <= j < |views| && j != i ::
           Held(views[j], Contents(raws)) == Held(views[j], old(Contents(raws)))
  {
    hide Join, Cut, Held, Wrap, Splice;
    var v := views[i];
    if lba + count < WORD { Unwrapped(v, lba, count); }
    ghost var before := Contents(raws);
    if Wrap(lba + count) > v.count {
      assert Contents(raws) == before;
      return false;
    }
    ghost var landed;
    ok, landed := raws[v.parent].Write(Wrap(v.offset + lba), count, buf);
    ghost var after := Contents(raws);
    assert forall d | 0 <= d < |raws| && d != v.parent :: raws[d] != raws[v.parent];
    if !ok {
      assert after == before;
      return;
    }
    assert after == Patched(before, v.parent, Below(v, lba), landed);
    if lba + count < WORD {
      hide Patched, Isolated;
      AllSeen(views, before, i, lba, landed);
    }
  }

  lemma AllSeen(views: seq<View>, before: seq<seq<Sector>>, i: nat, lba: nat, landed: seq<Sector>)
    requires Isolated(views, before) && i < |views| && lba + |landed| <= views[i].count
    ensures var v, after := views[i], Patched(before, views[i].parent, views[i].offset + lba, landed);
      && Isolated(views, after)
      && Held(v, after) == Splice(Held(v, before), lba, landed)
      && forall j | 0 <= j < |views| && j != i :: Held(views[j], after) == Held(views[j], before)
  {
    hide Splice, Held;
    var v, after := views[i], Patched(before, views[i].parent, views[i].offset + lba, landed);
    forall j | 0 <= j < |views|
      ensures Held(views[j], after) == if j == i then Splice(Held(v, before), lba, landed) else Held(views[j], before)
    {
      WriteSeen(views, before, i, j, lba, landed);
    }
  }

  /** The disks with `ss` put at sector `at` of disk `d`. */
  ghost function Patched(disks: seq<seq<Sector>>, d: nat, at: nat, ss: seq<Sector>): seq<seq<Sector>>
    requires d < |disks| && at + |ss| <= |disks[d]|
  {
    disks[d := Splice(disks[d], at, ss)]
  }

  lemma WriteSeen(views: seq<View>, before: seq<seq<Sector>>, i: nat, j: nat, lba: nat, landed: seq<Sector>)
    requires Isolated(views, before) && i < |views| && j < |views| && lba + |landed| <= views[i].count
    ensures var v, w := views[i], views[j];
      var after := Patched(before, v.parent, v.offset + lba, landed);
      Held(w, after) == if j == i then Splice(Held(v, before), lba, landed) else Held(w, before)
  {
    hide Splice;
    var v, w := views[i], views[j];
    if j == i {
      SpliceInside(before[v.parent], v.offset + lba, landed, v.offset, v.offset + v.count);
    } else if w.parent == v.parent {
      SpliceApart(before[v.parent], v.offset + lba, landed, w.offset, w.offset + w.count);
    }
  }
}
