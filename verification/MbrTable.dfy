/** The partition table in sector 0: its encoding, and what keeps it valid. */
module MbrTables {
  import opened Bytes
  import opened Disks

  const WORD := 0x1_0000_0000
  const TABLE := 0x1BE
  const ENTRY := 16
  const PARTS := 4
  const ALIGN := 2048

  datatype Part = Part(boot: byte, kind: byte, start: u32, count: u32)

  const EMPTY := Part(0, 0, 0, 0)

  /** An entry that describes a partition. */
  predicate Used(p: Part) { p.kind != 0 && p.count != 0 }

  function Signed(b: seq<byte>): bool
    requires |b| == SECTOR
  {
    b[510] == 0x55 && b[511] == 0xAA
  }

  /** Entry `i` as its bytes say. */
  function Entry(b: Sector, i: nat): Part
    requires i < PARTS
  {
    var o := TABLE + i * ENTRY;
    Part(b[o], b[o + 4], Le32(b, o + 8), Le32(b, o + 12))
  }

  function Entries(b: Sector): (ps: seq<Part>)
    ensures |ps| == PARTS
  {
    [Entry(b, 0), Entry(b, 1), Entry(b, 2), Entry(b, 3)]
  }

  predicate Plausible(p: Part) { Used(p) && p.start >= 1 }

  datatype Table = NoTable | Table(parts: seq<Part>)

  /** What reading the table finds: boot flags other than 0 and 0x80, or no plausible partition, mean that there is
      none. */
  function Decode(b: Sector): (t: Table)
    ensures t.Table? ==> t.parts == Entries(b)
  {
    if !Signed(b) then NoTable
    else if exists i | 0 <= i < PARTS :: b[TABLE + i * ENTRY] != 0 && b[TABLE + i * ENTRY] != 0x80 then NoTable
    else if exists i | 0 <= i < PARTS :: Plausible(Entry(b, i)) then Table(Entries(b))
    else NoTable
  }

  /** The bytes written for an entry; an unused one is all zeros. */
  function EntryBytes(p: Part): (e: seq<byte>)
    ensures |e| == ENTRY
  {
    if !Used(p) then seq(ENTRY, _ => 0)
    else [if p.boot != 0 then 0x80 else 0, 0xFE, 0xFF, 0xFF, p.kind, 0xFE, 0xFF, 0xFF,
          Byte(p.start, 0), Byte(p.start, 1), Byte(p.start, 2), Byte(p.start, 3),
          Byte(p.count, 0), Byte(p.count, 1), Byte(p.count, 2), Byte(p.count, 3)]
  }

  /** An entry as it comes back: unused ones blank, the boot flag 0x80 or 0. */
  function Tidy(p: Part): Part {
    if Used(p) then p.(boot := if p.boot != 0 then 0x80 else 0) else EMPTY
  }

  /** Sector `b` with table `ps` and the signature. */
  ghost predicate Encoded(b: Sector, was: Sector, ps: seq<Part>)
    requires |ps| == PARTS
  {
    && (forall k | 0 <= k < TABLE :: b[k] == was[k])
    && (forall i, k | 0 <= i < PARTS && 0 <= k < ENTRY :: b[TABLE + i * ENTRY + k] == EntryBytes(ps[i])[k])
    && Signed(b)
  }

  lemma EntryBack(b: Sector, was: Sector, ps: seq<Part>, i: nat)
    requires |ps| == PARTS && i < PARTS && Encoded(b, was, ps)
    ensures Entry(b, i) == Tidy(ps[i])
  {
    hide Byte, Le32;
    var p, e := ps[i], EntryBytes(ps[i]);
    var o := TABLE + i * ENTRY;
    assert forall k | 0 <= k < ENTRY :: b[o + k] == e[k];
    assert b[o] == e[0] && b[o + 4] == e[4];
    assert b[o + 8] == e[8] && b[o + 9] == e[9] && b[o + 10] == e[10] && b[o + 11] == e[11];
    assert b[o + 12] == e[12] && b[o + 13] == e[13] && b[o + 14] == e[14] && b[o + 15] == e[15];
    if Used(p) {
      WordAt(b, o + 8, p.start);
      WordAt(b, o + 12, p.count);
    } else {
      ZeroWord(b, o + 8);
      ZeroWord(b, o + 12);
    }
  }

  lemma ZeroWord(b: seq<byte>, o: nat)
    requires o + 4 <= |b| && b[o] == b[o + 1] == b[o + 2] == b[o + 3] == 0
    ensures Le32(b, o) == 0
  {
  }

  /** Reading back a written table gives its entries, unused ones blank; no table when none of them is plausible. */
  lemma TableBack(b: Sector, was: Sector, ps: seq<Part>)
    requires |ps| == PARTS && Encoded(b, was, ps)
    ensures Entries(b) == [Tidy(ps[0]), Tidy(ps[1]), Tidy(ps[2]), Tidy(ps[3])]
    ensures Decode(b) == if exists i | 0 <= i < PARTS :: Plausible(ps[i]) then Table(Entries(b)) else NoTable
  {
    hide EntryBytes, Encoded;
    forall i | 0 <= i < PARTS
      ensures Entry(b, i) == Tidy(ps[i]) && (b[TABLE + i * ENTRY] == 0 || b[TABLE + i * ENTRY] == 0x80)
    {
      EntryBack(b, was, ps, i);
      assert Entry(b, i).boot == b[TABLE + i * ENTRY];
    }
    assert Signed(b) by { EncodedSigned(b, was, ps); }
    forall i | 0 <= i < PARTS
      ensures Plausible(Entry(b, i)) <==> Plausible(ps[i])
    {
    }
  }

  lemma EncodedSigned(b: Sector, was: Sector, ps: seq<Part>)
    requires |ps| == PARTS && Encoded(b, was, ps)
    ensures Signed(b)
  {
  }

  /** Four bytes of a sector are not all zero. */
  predicate Some(b: Sector, o: nat)
    requires o + 4 <= SECTOR
  {
    b[o] != 0 || b[o + 1] != 0 || b[o + 2] != 0 || b[o + 3] != 0
  }

  /** Entry `i` begins with 0 or 80. */
  predicate FlagAt(b: Sector, i: nat)
    requires i < 4
  {
    b[446 + 16 * i] == 0 || b[446 + 16 * i] == 0x80
  }

  /** Entry `i` has a kind, a start and a count other than 0. */
  predicate PartAt(b: Sector, i: nat)
    requires i < 4
  {
    b[450 + 16 * i] != 0 && Some(b, 454 + 16 * i) && Some(b, 458 + 16 * i)
  }

  /** On the bytes: a sector holds a table exactly if it ends with 55 AA, every entry begins with 0 or 80, and some
      entry has a kind, a start and a count. */
  lemma TableBytes(b: Sector)
    ensures Decode(b).Table?
      <==> b[510] == 0x55 && b[511] == 0xAA && (forall i | 0 <= i < 4 :: FlagAt(b, i))
           && exists i | 0 <= i < 4 :: PartAt(b, i)
  {
    hide Some, Plausible, Entry;
    forall i | 0 <= i < 4
      ensures Plausible(Entry(b, i)) <==> PartAt(b, i)
    {
      PartIs(b, i);
    }
    if Decode(b).Table? {
      forall i | 0 <= i < 4
        ensures FlagAt(b, i)
      {
        assert b[TABLE + i * ENTRY] == 0 || b[TABLE + i * ENTRY] == 0x80;
      }
    }
    assert (exists i | 0 <= i < 4 :: Plausible(Entry(b, i))) <==> exists i | 0 <= i < 4 :: PartAt(b, i);
    if forall i | 0 <= i < 4 :: FlagAt(b, i) {
      forall i | 0 <= i < PARTS
        ensures b[TABLE + i * ENTRY] == 0 || b[TABLE + i * ENTRY] == 0x80
      {
        assert FlagAt(b, i);
      }
    }
  }

  lemma PartIs(b: Sector, i: nat)
    requires i < 4
    ensures Plausible(Entry(b, i)) <==> PartAt(b, i)
  {
    hide Le32, Some;
    SomeIs(b, 454 + 16 * i);
    SomeIs(b, 458 + 16 * i);
  }

  lemma SomeIs(b: Sector, o: nat)
    requires o + 4 <= SECTOR
    ensures Some(b, o) <==> Le32(b, o) != 0
  {
  }

  /** On the bytes: an entry with a kind and a count is written with its active flag as 80 or 0, cylinders, heads and
      sectors as FE FF FF, and start and count low byte first; any other entry as zeros. */
  lemma WrittenBytes(b: Sector, was: Sector, ps: seq<Part>, i: nat)
    requires |ps| == PARTS && i < PARTS && Encoded(b, was, ps)
    ensures var o, p := 446 + 16 * i, ps[i];
      if p.kind == 0 || p.count == 0 then forall k | o <= k < o + 16 :: b[k] == 0
      else
        && b[o] == (if p.boot != 0 then 0x80 else 0) && b[o + 4] == p.kind
        && b[o + 1..o + 4] == [0xFE, 0xFF, 0xFF] == b[o + 5..o + 8]
        && Le32(b, o + 8) == p.start && Le32(b, o + 12) == p.count
  {
    hide Le32, Byte;
    var o, e := 446 + 16 * i, EntryBytes(ps[i]);
    forall k | 0 <= k < ENTRY
      ensures b[o + k] == e[k]
    {
      assert b[TABLE + i * ENTRY + k] == e[k];
    }
    if Used(ps[i]) {
      EntryBack(b, was, ps, i);
      assert b[o + 0] == e[0] && b[o + 1] == e[1] && b[o + 2] == e[2] && b[o + 3] == e[3] && b[o + 4] == e[4];
      assert b[o + 5] == e[5] && b[o + 6] == e[6] && b[o + 7] == e[7];
    } else {
      forall k | o <= k < o + 16
        ensures b[k] == 0
      {
        assert b[o + (k - o)] == e[k - o];
      }
    }
  }

  // ---- valid tables ----

  ghost predicate Apart(p: Part, q: Part) {
    p.start + p.count <= q.start || q.start + q.count <= p.start
  }

  /** Partitions behind the first 2048 sectors and inside the disk, no two overlapping, at most one active. */
  ghost predicate Valid(ps: seq<Part>, total: nat) {
    && |ps| == PARTS
    && (forall i | 0 <= i < PARTS :: (ps[i].boot == 0 || ps[i].boot == 0x80) && (ps[i].kind == 0 || ps[i].count > 0))
    && (forall i | 0 <= i < PARTS && Used(ps[i]) :: 2048 <= ps[i].start && ps[i].start + ps[i].count <= total)
    && (forall i, j | 0 <= i < j < PARTS && Used(ps[i]) && Used(ps[j]) :: Apart(ps[i], ps[j]))
    && (forall i, j | 0 <= i < j < PARTS && ps[i].boot != 0 :: ps[j].boot == 0)
  }

  /** Sectors [start, start + count) lie behind the alignment gap, inside the disk and in no partition. */
  ghost predicate Free(ps: seq<Part>, total: nat, start: nat, count: nat) {
    && 2048 <= start && start + count <= total
    && forall i | 0 <= i < |ps| && Used(ps[i]) :: start + count <= ps[i].start || ps[i].start + ps[i].count <= start
  }

  /** The entries after creating a partition in slot `i`. */
  function Created(ps: seq<Part>, i: nat, p: Part): (qs: seq<Part>)
    requires |ps| == PARTS && i < PARTS
    ensures |qs| == PARTS
  {
    seq(PARTS, k requires 0 <= k < PARTS => if k == i then p else if p.boot != 0 then ps[k].(boot := 0) else ps[k])
  }

  function Activated(ps: seq<Part>, i: nat): (qs: seq<Part>)
    requires |ps| == PARTS && i < PARTS
    ensures |qs| == PARTS
  {
    seq(PARTS, k requires 0 <= k < PARTS => ps[k].(boot := if k == i then 0x80 else 0))
  }

  lemma CreateKeepsValid(ps: seq<Part>, total: nat, i: nat, p: Part)
    requires Valid(ps, total) && i < PARTS && ps[i].kind == 0 && Used(p) && Free(ps, total, p.start, p.count)
    requires p.boot == 0 || p.boot == 0x80
    ensures Valid(Created(ps, i, p), total)
  {
  }

  lemma DeleteKeepsValid(ps: seq<Part>, total: nat, i: nat)
    requires Valid(ps, total) && i < PARTS
    ensures Valid(ps[i := EMPTY], total)
  {
  }

  lemma ActivateKeepsValid(ps: seq<Part>, total: nat, i: nat)
    requires Valid(ps, total) && i < PARTS
    ensures Valid(Activated(ps, i), total)
  {
  }

  /** A valid table is not changed by writing and reading it back, up to the flags of unused entries. */
  lemma TidyKeepsValid(ps: seq<Part>, total: nat)
    requires Valid(ps, total)
    ensures Valid([Tidy(ps[0]), Tidy(ps[1]), Tidy(ps[2]), Tidy(ps[3])], total)
  {
  }
}
