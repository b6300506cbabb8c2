/** Directories: 32-byte slots, and the finite map from 8.3 names to entries that they represent. */
module Directory {
  import opened Bytes
  import opened FatCodec

  const SLOT := 32
  const DELETED := 0xE5

  type Slot = s: seq<byte> | |s| == SLOT witness seq(SLOT, _ => 0)
  type Name = s: seq<byte> | |s| == 11 witness seq(11, _ => 0x20)

  function NameOf(s: Slot): Name { s[..11] }
  predicate IsVolume(s: Slot) { s[11] / 8 % 2 == 1 }
  predicate IsSubdir(s: Slot) { s[11] / 16 % 2 == 1 }
  function SizeOf(s: Slot): u32 { Le32(s, 28) }

  function ClusterOf(kind: Kind, s: Slot): u32 {
    var lo: int := Le16(s, 26);
    var hi: int := Le16(s, 20);
    if kind.Fat32? then lo + 0x1_0000 * hi else lo
  }

  /** A slot that lookups can return. */
  predicate IsEntry(s: Slot) {
    s[0] != 0 && s[0] != DELETED && !IsVolume(s)
  }

  predicate IsFree(s: Slot) {
    s[0] == 0 || s[0] == DELETED
  }

  predicate IsFile(s: Slot) {
    IsEntry(s) && !IsSubdir(s)
  }

  /** The markers "." and "..", which path resolution never finds in a directory. */
  predicate IsDots(n: Name) {
    n[0] == 0x2E && (n[1] == 0x20 || n[1] == 0x2E) && forall i | 2 <= i < 11 :: n[i] == 0x20
  }

  /** Names no file or directory is made with: the markers, and those that begin with a blank. */
  predicate Reserved(n: Name) {
    n[0] == 0x20 || IsDots(n)
  }

  /** A subdirectory other than the directory itself and its parent. */
  predicate IsFolder(s: Slot) {
    IsEntry(s) && IsSubdir(s) && !IsDots(NameOf(s))
  }

  /** An entry with a chain of its own, and the bytes the entry says it holds. */
  predicate Owns(s: Slot) { IsFile(s) || IsFolder(s) }
  function Extent(s: Slot): u32 { if IsFile(s) then SizeOf(s) else 0 }

  /** No entry but "." and "..": every slot from `i` up to the first never used is marked deleted. */
  predicate NoneUsed(ss: seq<Slot>, i: nat)
    decreases |ss| - i
  {
    i >= |ss| || ss[i][0] == 0 || (ss[i][0] == DELETED && NoneUsed(ss, i + 1))
  }

  /** Ordinary names: the first byte is neither the end mark nor the deleted mark. */
  predicate Ordinary(n: Name) {
    n[0] != 0 && n[0] != DELETED
  }

  function Le16Bytes(v: nat): seq<byte> { [Byte(v, 0), Byte(v, 1)] }
  function Le32Bytes(v: nat): seq<byte> { [Byte(v, 0), Byte(v, 1), Byte(v, 2), Byte(v, 3)] }

  /** The entry with its first cluster and size replaced (dirent_set_cluster, then size). */
  function WithFile(kind: Kind, s: Slot, cluster: nat, size: nat): (r: Slot)
  {
    var hi := if kind.Fat32? then cluster / 0x1_0000 % 0x1_0000 else 0;
    s[..20] + Le16Bytes(hi) + s[22..26] + Le16Bytes(cluster % 0x1_0000) + Le32Bytes(size)
  }

  /** A fresh entry: everything zero but name, attribute and cluster. */
  function NewSlot(kind: Kind, name: Name, attr: byte, cluster: nat): (r: Slot)
  {
    WithFile(kind, name + [attr] + seq(20, _ => 0), cluster, 0)
  }

  lemma WithFileBytes(kind: Kind, s: Slot, cluster: nat, size: nat)
    ensures var r, lo, hi := WithFile(kind, s, cluster, size), cluster % 0x1_0000, cluster / 0x1_0000 % 0x1_0000;
            && r[26] == Byte(lo, 0) && r[27] == Byte(lo, 1)
            && (kind.Fat32? ==> r[20] == Byte(hi, 0) && r[21] == Byte(hi, 1))
            && r[28] == Byte(size, 0) && r[29] == Byte(size, 1) && r[30] == Byte(size, 2) && r[31] == Byte(size, 3)
            && r[..11] == s[..11] && r[11] == s[11]
  {
    hide Byte;
  }

  /** On the bytes: storing a cluster and a size changes bytes 20, 21 and 26 to 31, and keeps the high half of the
      cluster only on FAT32. */
  lemma WithFileKeeps(kind: Kind, s: Slot, cluster: nat, size: nat)
    ensures var r := WithFile(kind, s, cluster, size);
      r[..20] == s[..20] && r[22..26] == s[22..26] && (!kind.Fat32? ==> r[20] == r[21] == 0)
  {
  }

  /** On the bytes: a new file is its name, the archive bit 0x20 and zeros. */
  lemma NewFileBytes(kind: Kind, name: Name)
    ensures NewSlot(kind, name, 0x20, 0) == name + [0x20] + seq(20, _ => 0)
  {
  }

  lemma WithFileFields(kind: Kind, s: Slot, cluster: nat, size: nat)
    requires cluster < (if kind.Fat32? then 0x1_0000_0000 else 0x1_0000) && size < 0x1_0000_0000
    ensures var r := WithFile(kind, s, cluster, size);
            && ClusterOf(kind, r) == cluster && SizeOf(r) == size
            && NameOf(r) == NameOf(s) && r[0] == s[0] && r[11] == s[11]
  {
    hide Byte, WithFile, Le16, Le32;
    WithFileBytes(kind, s, cluster, size);
    SplitWord(cluster);
    var r := WithFile(kind, s, cluster, size);
    HalfAt(r, 26, cluster % 0x1_0000);
    if kind.Fat32? { HalfAt(r, 20, cluster / 0x1_0000 % 0x1_0000); }
    WordAt(r, 28, size);
    assert r[..11][0] == s[..11][0];
  }

  /** The attribute bits of a slot: 0x08 keeps it out of lookups and listings, 0x10 makes it a subdirectory. */
  lemma AttributeBits(s: Slot)
    ensures IsEntry(s) <==> s[0] != 0 && s[0] != 0xE5 && (s[11] as bv8) & 0x08 == 0
    ensures IsSubdir(s) <==> (s[11] as bv8) & 0x10 != 0
  {
  }

  /** The cluster and the size a slot names, in its bytes. */
  lemma SlotWords(kind: Kind, s: Slot)
    ensures SizeOf(s) == s[28] as int + 0x100 * s[29] as int + 0x1_0000 * s[30] as int + 0x100_0000 * s[31] as int
    ensures ClusterOf(kind, s) ==
      s[26] as int + 0x100 * s[27] as int
        + if kind.Fat32? then 0x1_0000 * s[20] as int + 0x100_0000 * s[21] as int else 0
  {
  }

  /** Names no file or directory is made with: those that begin with a blank, and the two markers. */
  lemma ReservedNames(n: Name)
    ensures Reserved(n) <==> n[0] == 0x20 || n == [0x2E] + seq(10, _ => 0x20) || n == [0x2E, 0x2E] + seq(9, _ => 0x20)
    ensures IsDots(n) <==> n == [0x2E] + seq(10, _ => 0x20) || n == [0x2E, 0x2E] + seq(9, _ => 0x20)
  {
    if IsDots(n) {
      assert n == if n[1] == 0x20 then [0x2E] + seq(10, _ => 0x20) else [0x2E, 0x2E] + seq(9, _ => 0x20);
    }
  }

  /** On the bytes: a directory counts as empty from slot `i` on if all slots up to the first never used are deleted. */
  lemma {:induction false} NoneUsedBytes(ss: seq<Slot>, i: nat)
    ensures NoneUsed(ss, i)
      <==> forall k | i <= k < |ss| && (forall j | i <= j <= k :: ss[j][0] != 0) :: ss[k][0] == 0xE5
    decreases |ss| - i
  {
    if i < |ss| && ss[i][0] != 0 {
      NoneUsedBytes(ss, i + 1);
      if NoneUsed(ss, i + 1) && ss[i][0] == 0xE5 {
        forall k | i <= k < |ss| && (forall j | i <= j <= k :: ss[j][0] != 0)
          ensures ss[k][0] == 0xE5
        {
        }
      } else if NoneUsed(ss, i) == false && ss[i][0] == 0xE5 {
        var k :| i + 1 <= k < |ss| && (forall j | i + 1 <= j <= k :: ss[j][0] != 0) && ss[k][0] != 0xE5;
        assert forall j | i <= j <= k :: ss[j][0] != 0;
      } else {
        assert forall j | i <= j <= i :: ss[j][0] != 0;
      }
    }
  }

  lemma SplitWord(v: u32)
    ensures v % 0x1_0000 + 0x1_0000 * (v / 0x1_0000 % 0x1_0000) == v
    ensures v < 0x1_0000 ==> v % 0x1_0000 == v
  {
  }

  // ---- the slots of a directory buffer ----

  function SlotAt(buf: seq<byte>, i: nat): Slot
    requires (i + 1) * SLOT <= |buf|
  {
    buf[i * SLOT..(i + 1) * SLOT]
  }

  function Slots(buf: seq<byte>): (ss: seq<Slot>)
    ensures |ss| == |buf| / SLOT
  {
    seq(|buf| / SLOT, i requires 0 <= i < |buf| / SLOT => SlotAt(buf, i))
  }

  lemma StoreSlot(buf: seq<byte>, i: nat, s: Slot)
    requires i < |buf| / SLOT
    ensures i * SLOT + SLOT <= |buf| && Slots(Splice(buf, i * SLOT, s)) == Slots(buf)[i := s]
  {
    var r := Splice(buf, i * SLOT, s);
    forall k | 0 <= k < |buf| / SLOT
      ensures Slots(r)[k] == Slots(buf)[i := s][k]
    {
      if k == i {
        SpliceInside(buf, i * SLOT, s, i * SLOT, (i + 1) * SLOT);
      } else {
        SpliceApart(buf, i * SLOT, s, k * SLOT, (k + 1) * SLOT);
      }
    }
  }

  // ---- the map a directory represents ----

  /** After the first slot never used, no slot is used. */
  ghost predicate ZeroTail(ss: seq<Slot>) {
    forall i, j {:trigger ss[i][0], ss[j][0]} | 0 <= i < j < |ss| && ss[i][0] == 0 :: ss[j][0] == 0
  }

  ghost predicate UniqueNames(ss: seq<Slot>) {
    forall i, j {:trigger NameOf(ss[i]), NameOf(ss[j])} | 0 <= i < |ss| && 0 <= j < |ss|
      && IsEntry(ss[i]) && IsEntry(ss[j]) && NameOf(ss[i]) == NameOf(ss[j]) :: i == j
  }

  ghost predicate WellFormed(ss: seq<Slot>) {
    ZeroTail(ss) && UniqueNames(ss)
  }

  ghost function DirMap(ss: seq<Slot>): map<Name, Slot>
    requires UniqueNames(ss)
  {
    map i | 0 <= i < |ss| && IsEntry(ss[i]) :: NameOf(ss[i]) := ss[i]
  }

  ghost predicate EntryAt(ss: seq<Slot>, i: int, n: Name) {
    0 <= i < |ss| && IsEntry(ss[i]) && NameOf(ss[i]) == n
  }

  /** A map that agrees with every slot, and whose every name has a slot, is the directory's map. */
  lemma MapIs(ss: seq<Slot>, m: map<Name, Slot>)
    requires UniqueNames(ss)
    requires forall i, n | EntryAt(ss, i, n) :: n in m && m[n] == ss[i]
    requires forall n | n in m :: exists i :: EntryAt(ss, i, n)
    ensures DirMap(ss) == m
  {
    var d := DirMap(ss);
    forall n | n in m
      ensures n in d && d[n] == m[n]
    {
      var i :| EntryAt(ss, i, n);
      assert ss[i] == m[n];
    }
    forall n | n in d
      ensures n in m
    {
      var i: nat :| i < |ss| && IsEntry(ss[i]) && NameOf(ss[i]) == n;
      assert EntryAt(ss, i, n);
    }
  }

  lemma MapHas(ss: seq<Slot>)
    requires UniqueNames(ss)
    ensures forall i, n | EntryAt(ss, i, n) :: n in DirMap(ss) && DirMap(ss)[n] == ss[i]
    ensures forall n | n in DirMap(ss) :: exists i :: EntryAt(ss, i, n)
  {
    forall n | n in DirMap(ss)
      ensures exists i :: EntryAt(ss, i, n)
    {
      var i: nat :| i < |ss| && IsEntry(ss[i]) && NameOf(ss[i]) == n;
      assert EntryAt(ss, i, n);
    }
  }

  /** Changing slot `i`: every other entry stays where it was. */
  lemma OtherEntries(ss: seq<Slot>, i: nat, e: Slot)
    requires i < |ss|
    ensures forall k, n | k != i :: EntryAt(ss[i := e], k, n) <==> EntryAt(ss, k, n)
  {
  }

  /** The first slot a lookup accepts: it stops at the first slot never used. */
  function FindFrom(ss: seq<Slot>, name: Name, i: nat): (r: int)
    requires i <= |ss|
    ensures r == -1 || (i <= r < |ss| && IsEntry(ss[r]) && NameOf(ss[r]) == name)
    decreases |ss| - i
  {
    if i == |ss| || ss[i][0] == 0 then -1
    else if IsEntry(ss[i]) && NameOf(ss[i]) == name then i
    else FindFrom(ss, name, i + 1)
  }

  lemma {:induction false} FindMisses(ss: seq<Slot>, name: Name, i: nat)
    requires i <= |ss| && ZeroTail(ss) && FindFrom(ss, name, i) == -1
    ensures forall k | i <= k < |ss| :: !(IsEntry(ss[k]) && NameOf(ss[k]) == name)
    decreases |ss| - i
  {
    if i < |ss| && ss[i][0] != 0 {
      FindMisses(ss, name, i + 1);
    }
  }

  /** Looking a name up in the slots is looking it up in the map. */
  lemma FindIsLookup(ss: seq<Slot>, name: Name)
    requires WellFormed(ss)
    ensures var r := FindFrom(ss, name, 0);
            (r == -1 <==> name !in DirMap(ss)) && (r >= 0 ==> name in DirMap(ss) && ss[r] == DirMap(ss)[name])
  {
    if FindFrom(ss, name, 0) == -1 {
      FindMisses(ss, name, 0);
    }
  }

  /** The slot a new entry goes to. */
  function FirstFree(ss: seq<Slot>, i: nat): (r: int)
    requires i <= |ss|
    ensures r == -1 ==> forall k | i <= k < |ss| :: !IsFree(ss[k])
    ensures r == -1 || (i <= r < |ss| && IsFree(ss[r]) && forall k | i <= k < r :: !IsFree(ss[k]))
    decreases |ss| - i
  {
    if i == |ss| then -1 else if IsFree(ss[i]) then i else FirstFree(ss, i + 1)
  }

  /** Storing an entry under a new name in the first free slot adds it to the map. */
  lemma AddIsUpdate(ss: seq<Slot>, e: Slot)
    requires WellFormed(ss) && IsEntry(e) && NameOf(e) !in DirMap(ss) && FirstFree(ss, 0) >= 0
    ensures var t := ss[FirstFree(ss, 0) := e];
            WellFormed(t) && DirMap(t) == DirMap(ss)[NameOf(e) := e]
  {
    var i := FirstFree(ss, 0);
    FreeIsNoEntry(ss[i]);
    EntryMark(e);
    FreeBefore(ss);
    PutEntryInMap(ss, i, e, DirMap(ss));
  }

  /** Slot `i` gets entry `e`, where the map `rest` is that of the other slots. */
  lemma PutEntryInMap(ss: seq<Slot>, i: nat, e: Slot, rest: map<Name, Slot>)
    requires WellFormed(ss) && i < |ss| && IsEntry(e) && e[0] != 0
    requires NameOf(e) !in rest && forall k | 0 <= k < i :: ss[k][0] != 0
    requires rest == if IsEntry(ss[i]) then DirMap(ss) - {NameOf(ss[i])} else DirMap(ss)
    ensures WellFormed(ss[i := e]) && DirMap(ss[i := e]) == rest[NameOf(e) := e]
  {
    hide IsEntry, NameOf, DirMap;
    var t, m := ss[i := e], rest[NameOf(e) := e];
    MapHas(ss);
    OtherEntries(ss, i, e);
    forall k, n | k != i && EntryAt(ss, k, n)
      ensures n in rest && rest[n] == ss[k]
    {
    }
    assert UniqueNames(t) by {
      forall a, b | 0 <= a < |t| && 0 <= b < |t| && IsEntry(t[a]) && IsEntry(t[b]) && NameOf(t[a]) == NameOf(t[b])
        ensures a == b
      {
        assert EntryAt(t, a, NameOf(t[a])) && EntryAt(t, b, NameOf(t[a]));
      }
    }
    forall n | n in m
      ensures exists k :: EntryAt(t, k, n)
    {
      if n == NameOf(e) {
        assert EntryAt(t, i, n);
      } else {
        var k :| EntryAt(ss, k, n);
        assert EntryAt(t, k, n);
      }
    }
    MapIs(t, m);
  }

  lemma FreeIsNoEntry(s: Slot)
    ensures IsFree(s) ==> !IsEntry(s)
  {
  }

  lemma EntryMark(s: Slot)
    ensures IsEntry(s) ==> s[0] != 0 && s[0] != DELETED
  {
  }

  lemma FreeBefore(ss: seq<Slot>)
    requires FirstFree(ss, 0) >= 0
    ensures forall k | 0 <= k < FirstFree(ss, 0) :: ss[k][0] != 0
  {
    assert forall k | 0 <= k < FirstFree(ss, 0) :: !IsFree(ss[k]);
  }

  /** Marking a slot deleted removes its name from the map. */
  lemma RemoveIsDelete(ss: seq<Slot>, i: nat)
    requires WellFormed(ss) && i < |ss| && IsEntry(ss[i])
    ensures var t := ss[i := ss[i][0 := DELETED]];
            WellFormed(t) && DirMap(t) == DirMap(ss) - {NameOf(ss[i])}
  {
    hide IsEntry, NameOf, DirMap;
    var e := ss[i][0 := DELETED];
    var t, m := ss[i := e], DirMap(ss) - {NameOf(ss[i])};
    EntryMark(ss[i]);
    EntryMark(e);
    MapHas(ss);
    OtherEntries(ss, i, e);
    assert UniqueNames(t) by {
      forall a, b | 0 <= a < |t| && 0 <= b < |t| && IsEntry(t[a]) && IsEntry(t[b]) && NameOf(t[a]) == NameOf(t[b])
        ensures a == b
      {
        assert EntryAt(t, a, NameOf(t[a])) && EntryAt(t, b, NameOf(t[a]));
      }
    }
    assert EntryAt(ss, i, NameOf(ss[i]));
    forall n | n in m
      ensures exists k :: EntryAt(t, k, n)
    {
      var k :| EntryAt(ss, k, n);
      assert EntryAt(t, k, n);
    }
    MapIs(t, m);
  }

  /** Replacing an entry by one of a name not in use (or its own) replaces it in the map. */
  lemma ReplaceIsUpdate(ss: seq<Slot>, i: nat, e: Slot)
    requires WellFormed(ss) && i < |ss| && IsEntry(ss[i]) && IsEntry(e)
    requires NameOf(e) == NameOf(ss[i]) || NameOf(e) !in DirMap(ss)
    ensures var t := ss[i := e];
            WellFormed(t) && DirMap(t) == (DirMap(ss) - {NameOf(ss[i])})[NameOf(e) := e]
  {
    EntryMark(e);
    EntryMark(ss[i]);
    PutEntryInMap(ss, i, e, DirMap(ss) - {NameOf(ss[i])});
  }

  // ---- listing ----

  /** What reading a directory from slot `i` on returns. */
  function Listing(ss: seq<Slot>, i: nat): (r: seq<Slot>)
    requires i <= |ss|
    decreases |ss| - i
  {
    if i == |ss| || ss[i][0] == 0 then []
    else if IsEntry(ss[i]) then [ss[i]] + Listing(ss, i + 1)
    else Listing(ss, i + 1)
  }

  /** On the bytes: a listing holds the slots in front of the first one never used that are neither deleted nor of
      attribute 0x08. */
  lemma {:induction false} ListingBytes(ss: seq<Slot>, i: nat, e: Slot)
    requires i <= |ss|
    ensures e in Listing(ss, i) <==>
      exists k: nat :: i <= k < |ss| && ss[k] == e && ss[k][0] != 0xE5 && (ss[k][11] as bv8) & 0x08 == 0
        && forall j | i <= j <= k :: ss[j][0] != 0
    decreases |ss| - i
  {
    hide IsEntry;
    if i < |ss| {
      AttributeBits(ss[i]);
      if ss[i][0] != 0 {
        ListingBytes(ss, i + 1, e);
      }
    }
  }

  /** On the bytes: the slot a lookup finds is the first of that name, neither deleted nor of attribute 0x08, and no
      slot in front of it was never used. */
  ghost predicate FirstOfName(ss: seq<Slot>, name: Name, k: int) {
    && 0 <= k < |ss| && Carries(ss[k], name)
    && (forall j | 0 <= j <= k :: ss[j][0] != 0) && forall j | 0 <= j < k :: !Carries(ss[j], name)
  }

  predicate Carries(s: Slot, name: Name) {
    s[0] != 0xE5 && (s[11] as bv8) & 0x08 == 0 && s[..11] == name
  }

  lemma OneFirst(ss: seq<Slot>, name: Name)
    ensures forall k, l | FirstOfName(ss, name, k) && FirstOfName(ss, name, l) :: k == l
  {
  }

  /** What reading a directory passes over: the deleted, and what has attribute 0x08. */
  predicate Unlisted(s: Slot) {
    s[0] == 0xE5 || (s[0] != 0 && (s[11] as bv8) & 0x08 != 0)
  }

  lemma {:induction false} FindBytes(ss: seq<Slot>, name: Name, i: nat)
    requires i <= |ss| && forall j | 0 <= j < i :: ss[j][0] != 0 && !Carries(ss[j], name)
    ensures FindFrom(ss, name, i) >= 0 ==> FirstOfName(ss, name, FindFrom(ss, name, i))
    ensures FindFrom(ss, name, i) == -1 ==> forall k :: !FirstOfName(ss, name, k)
    decreases |ss| - i
  {
    hide IsEntry;
    if i < |ss| && ss[i][0] != 0 {
      AttributeBits(ss[i]);
      if !(IsEntry(ss[i]) && NameOf(ss[i]) == name) {
        FindBytes(ss, name, i + 1);
      }
    }
  }

  lemma {:induction false} ListingHolds(ss: seq<Slot>, i: nat, e: Slot)
    requires i <= |ss| && ZeroTail(ss)
    ensures e in Listing(ss, i) <==> exists k: nat :: i <= k < |ss| && IsEntry(ss[k]) && ss[k] == e
    decreases |ss| - i
  {
    if i < |ss| && ss[i][0] != 0 {
      ListingHolds(ss, i + 1, e);
    }
  }

  lemma {:induction false} ListingDistinct(ss: seq<Slot>, i: nat, a: nat, b: nat)
    requires i <= |ss| && WellFormed(ss) && a < b < |Listing(ss, i)|
    ensures NameOf(Listing(ss, i)[a]) != NameOf(Listing(ss, i)[b])
    decreases |ss| - i
  {
    if IsEntry(ss[i]) {
      if a > 0 {
        ListingDistinct(ss, i + 1, a - 1, b - 1);
      } else {
        ListingHolds(ss, i + 1, Listing(ss, i)[b]);
      }
    } else {
      ListingDistinct(ss, i + 1, a, b);
    }
  }

  /** A listing holds every entry of the map exactly once, and nothing else. */
  lemma ListingIsMap(ss: seq<Slot>)
    requires WellFormed(ss)
    ensures forall e :: e in Listing(ss, 0) <==> NameOf(e) in DirMap(ss) && DirMap(ss)[NameOf(e)] == e
    ensures forall a, b | 0 <= a < b < |Listing(ss, 0)| :: NameOf(Listing(ss, 0)[a]) != NameOf(Listing(ss, 0)[b])
  {
    MapHas(ss);
    forall e: Slot
      ensures e in Listing(ss, 0) <==> NameOf(e) in DirMap(ss) && DirMap(ss)[NameOf(e)] == e
    {
      ListingHolds(ss, 0, e);
      if NameOf(e) in DirMap(ss) && DirMap(ss)[NameOf(e)] == e {
        var k :| EntryAt(ss, k, NameOf(e));
      }
      if e in Listing(ss, 0) {
        var k: nat :| 0 <= k < |ss| && IsEntry(ss[k]) && ss[k] == e;
        assert EntryAt(ss, k, NameOf(e));
      }
    }
    forall a, b | 0 <= a < b < |Listing(ss, 0)|
      ensures NameOf(Listing(ss, 0)[a]) != NameOf(Listing(ss, 0)[b])
    {
      ListingDistinct(ss, 0, a, b);
    }
  }
}
