/** The formatter: the geometry it chooses, the sectors it writes, and what mounting then finds. */
module Formatting {
  import opened Bytes
  import opened Disks
  import opened FatCodec
  import opened FatVolumes
  import opened Mounting

  const ZERO: Sector := seq(SECTOR, _ => 0)
  const FAT32_FROM := 0x10_0000
  const RESERVED16 := 4
  const RESERVED32 := 32
  const ROOT16 := 16

  /** Sectors per cluster by volume size. */
  function ClusterSectors(total: nat): (n: nat)
    ensures n == 4 || n == 8 || n == 16
  {
    if total < 0x8000 then 4
    else if total < 0x2_0000 then 8
    else if total < FAT32_FROM then 16
    else if total < 0x20_0000 then 8
    else 16
  }

  /** Sectors of one table, in 32-bit arithmetic: the rounding up overflows just below 2^32 sectors. */
  function TableSectors(total: nat): nat
    requires 1024 <= total < WORD
  {
    var spc := ClusterSectors(total);
    var num, den := if total < FAT32_FROM then total - 20 + 8 else total - 32 + 8,
                    if total < FAT32_FROM then spc * 128 + 2 else spc * 128 + 4;
    var secs := Quot(Wrap(num + den - 1), den);
    if secs == 0 then 1 else secs
  }

  /** The volume the formatter means to write. */
  function Plan(total: nat): (s: Shape)
    requires 1024 <= total < WORD
    ensures s.Shape?
  {
    var fs := TableSectors(total);
    if total < FAT32_FROM then
      Shape(Fat16, ClusterSectors(total), Layout(RESERVED16, fs, RESERVED16 + 2 * fs, ROOT16,
          RESERVED16 + 2 * fs + ROOT16), 0)
    else
      Shape(Fat32, ClusterSectors(total), Layout(RESERVED32, fs, RESERVED32 + 2 * fs, 0, RESERVED32 + 2 * fs), 2)
  }

  /** The fields mounting reads; where FAT32 has its root cluster, FAT16 has four letters of the volume name. */
  function PlannedBpb(total: nat, letters: u32): Bpb
    requires 1024 <= total < WORD
  {
    var fs, spc := TableSectors(total), ClusterSectors(total);
    if total < FAT32_FROM then Bpb(SECTOR, spc, RESERVED16, 2, 256, fs, total, letters)
    else Bpb(SECTOR, spc, RESERVED32, 2, 0, fs, total, 2)
  }

  /** Clusters by the size of the volume in bytes: of 2, 4 and 8 KiB below 16 MiB, 64 MiB and 512 MiB, and with FAT32
      of 4 KiB below 1 GiB and of 8 KiB from there on. */
  lemma ClusterBytesByVolume(total: nat)
    ensures var size, mib := total * 512, 1024 * 1024;
      ClusterSectors(total) * 512
      == if size < 16 * mib then 2048
         else if size < 64 * mib then 4096
         else if size < 512 * mib then 8192
         else if size < 1024 * mib then 4096
         else 8192
  {
  }

  // ---- arithmetic of the geometry ----

  lemma QuotBounds(n: nat, d: nat)
    requires d > 0
    ensures d * Quot(n, d) <= n < d * Quot(n, d) + d
  {
  }

  /** The table size is the rounded-up quotient, except where 32 bits overflow. */
  lemma TableSize(total: nat)
    requires 1024 <= total < WORD
    ensures var fs, spc := TableSectors(total), ClusterSectors(total);
      && fs >= 1
      && (total < FAT32_FROM ==> total - 12 <= fs * (spc * 128 + 2) < total - 12 + spc * 128 + 2)
      && (FAT32_FROM <= total < WORD - 2027 ==> total - 24 <= fs * (spc * 128 + 4) < total - 24 + spc * 128 + 4)
      && (total >= WORD - 2027 ==> fs == 1)
  {
    hide Quot, Wrap;
    var spc := ClusterSectors(total);
    WrapSmall(if total < FAT32_FROM then total - 12 + spc * 128 + 1 else total - 24 + spc * 128 + 3);
    if total < FAT32_FROM {
      QuotBounds(total - 12 + spc * 128 + 1, spc * 128 + 2);
    } else if total < WORD - 2027 {
      QuotBounds(total - 24 + spc * 128 + 3, spc * 128 + 4);
    } else {
      QuotBounds(total + 2027 - WORD, 2052);
    }
  }

  /** The regions fit, and the number of data clusters against the number of table entries. */
  lemma PlanFits(total: nat)
    requires 1024 <= total < WORD
    ensures var s := Plan(total);
      var clusters := Quot(total - s.layout.dataLba, s.secPerCluster);
      && s.layout.dataLba + s.secPerCluster <= total
      && (s.kind.Fat16? ==> s.layout.fatSectors <= 512 && clusters < s.layout.fatSectors * 128 && clusters <= 65470)
      && (s.kind.Fat32? ==>
            s.layout.fatSectors * 128 - 2 <= clusters && clusters >= 65525 && s.layout.fatSectors < 0x20_0000)
  {
    hide Quot, TableSectors;
    TableSize(total);
    var s := Plan(total);
    QuotBounds(total - s.layout.dataLba, s.secPerCluster);
    hide ClusterSectors;
    var clusters := Quot(total - s.layout.dataLba, s.secPerCluster);
    if total < FAT32_FROM {
      PlanFits16(total, TableSectors(total), ClusterSectors(total), clusters);
    } else {
      PlanFits32(total, TableSectors(total), ClusterSectors(total), clusters);
    }
  }

  lemma PlanFits16(total: nat, fs: nat, spc: nat, clusters: nat)
    requires 1024 <= total < FAT32_FROM && spc == ClusterSectors(total)
    requires total - 12 <= fs * (spc * 128 + 2) < total - 12 + spc * 128 + 2
    requires spc * clusters <= total - 20 - 2 * fs < spc * clusters + spc
    ensures 20 + 2 * fs + spc <= total && fs <= 512 && clusters < fs * 128 && clusters <= 65470
  {
  }

  lemma PlanFits32(total: nat, fs: nat, spc: nat, clusters: nat)
    requires FAT32_FROM <= total < WORD && spc == ClusterSectors(total) && fs >= 1
    requires total < WORD - 2027 ==> total - 24 <= fs * (spc * 128 + 4) < total - 24 + spc * 128 + 4
    requires total >= WORD - 2027 ==> fs == 1
    requires spc * clusters <= total - 32 - 2 * fs < spc * clusters + spc
    ensures 32 + 2 * fs + spc <= total && fs * 128 - 2 <= clusters && clusters >= 65525 && fs < 0x20_0000
  {
  }

  /** Mounting a fresh volume finds the kind, cluster size and regions that were written from 16424 sectors on;
      below, it takes the volume for FAT12, and refuses it when its table is larger than the FAT12 buffer. */
  lemma Classified(total: nat, letters: u32)
    requires 1024 <= total < WORD
    ensures var s := ShapeOf(PlannedBpb(total, letters));
      && (s == Plan(total) <==> total >= 16424)
      && (s.Shape? && s.kind == Plan(total).kind <==> total >= 16424)
      && (s.Refused? <==> 8237 <= total < 16424)
      && (total < 8237 ==> s == Plan(total).(kind := Fat12))
  {
    hide Quot, Wrap, TableSectors, ClusterSectors;
    PlanFits(total);
    TableSize(total);
    var s := Plan(total);
    var clusters := Quot(total - s.layout.dataLba, s.secPerCluster);
    QuotBounds(total - s.layout.dataLba, s.secPerCluster);
    WrapSmall(s.layout.rootLba);
    WrapSmall(s.layout.dataLba);
    WrapSmall(total - s.layout.dataLba);
    WrapSmall(s.layout.fatSectors * SECTOR);
    assert RootSectors(PlannedBpb(total, letters)) == s.layout.rootSectors;
    if total < FAT32_FROM {
      SmallVolume(total, s.layout.fatSectors, s.secPerCluster, clusters);
    }
  }

  lemma SmallVolume(total: nat, fs: nat, spc: nat, clusters: nat)
    requires 1024 <= total < FAT32_FROM && spc == ClusterSectors(total)
    requires total - 12 <= fs * (spc * 128 + 2) < total - 12 + spc * 128 + 2
    requires spc * clusters <= total - 20 - 2 * fs < spc * clusters + spc
    ensures clusters >= 4085 <==> total >= 16424
    ensures total < 16424 ==> (fs <= FAT12_SECTORS <==> total < 8237)
  {
  }

  // ---- the sectors written ----

  const FIRST16: Sector := [0xF8, 0xFF, 0xFF, 0xFF] + seq(SECTOR - 4, _ => 0)
  const FIRST32: Sector :=
    [0xF8, 0xFF, 0xFF, 0x0F, 0xFF, 0xFF, 0xFF, 0x0F, 0xF8, 0xFF, 0xFF, 0x0F] + seq(SECTOR - 12, _ => 0)

  /** The entries a fresh table starts with: the medium, an end mark, and with FAT32 the chain of the root. */
  lemma FirstEntries()
    ensures Entry(Fat16, FIRST16, 0) == 0xFFF8 && Entry(Fat16, FIRST16, 1) == 0xFFFF
    ensures Entry(Fat32, FIRST32, 0) == 0x0FFF_FFF8 && Entry(Fat32, FIRST32, 1) == 0x0FFF_FFFF
    ensures Entry(Fat32, FIRST32, 2) == Eof(Fat32)
    ensures forall c | 2 <= c < 256 :: Entry(Fat16, FIRST16, c) == 0
    ensures forall c | 3 <= c < 128 :: Entry(Fat32, FIRST32, c) == 0
  {
    hide Entry;
    FirstEntries16();
    FirstEntries32();
  }

  lemma FirstEntries16()
    ensures Entry(Fat16, FIRST16, 0) == 0xFFF8 && Entry(Fat16, FIRST16, 1) == 0xFFFF
    ensures forall c | 2 <= c < 256 :: Entry(Fat16, FIRST16, c) == 0
  {
    hide Entry, Halves;
    forall c: nat | c < 256
      ensures Entry(Fat16, FIRST16, c) == FIRST16[2 * c] as int + 0x100 * FIRST16[2 * c + 1] as int
    {
      EntryDigits(Fat16, FIRST16, c);
    }
  }

  lemma FirstEntries32()
    ensures Entry(Fat32, FIRST32, 0) == 0x0FFF_FFF8 && Entry(Fat32, FIRST32, 1) == 0x0FFF_FFFF
    ensures Entry(Fat32, FIRST32, 2) == Eof(Fat32)
    ensures forall c | 3 <= c < 128 :: Entry(Fat32, FIRST32, c) == 0
  {
    hide Entry, Halves;
    forall c: nat | c < 128
      ensures Entry(Fat32, FIRST32, c) == LowBits(FIRST32, 4 * c)
    {
      EntryDigits(Fat32, FIRST32, c);
    }
  }

  /** A run of `n` sectors: `first`, then zeros. */
  function Image(first: Sector, n: nat): (r: seq<Sector>)
    ensures |r| == n
  {
    seq(n, i => if i == 0 then first else ZERO)
  }

  const ZENBITE: seq<byte> := [0x5A, 0x45, 0x4E, 0x42, 0x49, 0x54, 0x45, 0x20]

  const FAT16_NAME: seq<byte> := [0x46, 0x41, 0x54, 0x31, 0x36, 0x20, 0x20, 0x20]
  const FAT32_NAME: seq<byte> := [0x46, 0x41, 0x54, 0x33, 0x32, 0x20, 0x20, 0x20]

  /** The start of a boot sector: a jump over the fields, the name of the system, medium, sectors per track, heads. */
  ghost predicate Lead(b: Sector, jump: byte) {
    && b[..3] == [0xEB, jump, 0x90] && b[3..11] == ZENBITE && b[21] == 0xF8 && b[24] == 63 && b[26] == 16
    && b[25] == b[27] == 0
  }

  /** The fields from `at` on: drive, signature, serial number, title and name of the kind. */
  ghost predicate Titled(b: Sector, at: nat, title: seq<byte>, kindName: seq<byte>)
    requires at + 26 <= SECTOR
  {
    && b[at] == 0x80 && b[at + 2] == 0x29 && b[at + 3..at + 7] == [0x37, 0x12, 0x34, 0x56]
    && b[at + 7..at + 18] == title && b[at + 18..at + 26] == kindName
  }

  /** The boot sector. */
  ghost predicate BootOk(b: Sector, total: nat, hidden: u32, title: seq<byte>)
    requires 1024 <= total < WORD && |title| == 11
  {
    && Lead(b, if total < FAT32_FROM then 0x3C else 0x58)
    && (if total < FAT32_FROM then Titled(b, 36, title, FAT16_NAME) else Titled(b, 64, title, FAT32_NAME))
    && (total >= FAT32_FROM ==> b[48] == 1 && b[50] == 6)
    && ReadBpb(b) == PlannedBpb(total, Le32(b, 44)) && b[510] == 0x55 && b[511] == 0xAA
    && (total >= FAT32_FROM ==> Le32(b, 44) == 2)
    && Le32(b, 28) == hidden
  }

  method Put(a: array<byte>, at: nat, bytes: seq<byte>)
    requires at + |bytes| <= a.Length
    modifies a
    ensures forall i | 0 <= i < a.Length :: a[i] == if at <= i < at + |bytes| then bytes[i - at] else old(a[i])
  {
    forall i | 0 <= i < |bytes| {
      a[at + i] := bytes[i];
    }
  }

  /** The fields both kinds fill in alike, in a zeroed sector. */
  method Head(boot: array<byte>, jump: byte, spc: byte, reserved: byte, hidden: u32)
    requires boot.Length == SECTOR && forall i | 0 <= i < SECTOR :: boot[i] == 0
    modifies boot
    ensures BootHead(boot[..], spc, reserved, hidden) && Lead(boot[..], jump)
    ensures boot[17] == 0 && boot[18] == 0 && forall i | 32 <= i < SECTOR :: boot[i] == 0
    ensures forall i | 19 <= i < 24 && i != 21 :: boot[i] == 0
  {
    hide Byte;
    Put(boot, 0, [0xEB, jump, 0x90] + ZENBITE);
    Put(boot, 11, [0, 2, spc, reserved, 0, 2]);
    boot[21], boot[24], boot[26] := 0xF8, 63, 16;
    Put(boot, 28, [Byte(hidden, 0), Byte(hidden, 1), Byte(hidden, 2), Byte(hidden, 3)]);
    LeadBytes(boot[..], jump);
  }

  lemma LeadBytes(b: Sector, jump: byte)
    requires var lead: seq<byte> := [0xEB, jump, 0x90] + ZENBITE; forall i | 0 <= i < 11 :: b[i] == lead[i]
    ensures b[..3] == [0xEB, jump, 0x90] && b[3..11] == ZENBITE
  {
    var lead: seq<byte> := [0xEB, jump, 0x90] + ZENBITE;
    assert lead[..3] == [0xEB, jump, 0x90] && lead[3..] == ZENBITE;
    assert b[..11] == lead;
    assert b[..3] == b[..11][..3] && b[3..11] == b[..11][3..];
  }

  lemma SameLead(a: Sector, b: Sector, jump: byte)
    requires Lead(a, jump) && forall i | 0 <= i < 11 || i == 21 || 24 <= i < 28 :: b[i] == a[i]
    ensures Lead(b, jump)
  {
    assert b[..11] == a[..11];
    LeadBytes(b, jump);
  }

  /** The extended fields from `at` on, and the signature. */
  method Tail(boot: array<byte>, at: nat, title: seq<byte>, kindName: seq<byte>)
    requires boot.Length == SECTOR && 36 <= at <= 64 && |title| == 11 && |kindName| == 8
    modifies boot
    ensures forall i | 0 <= i < at :: boot[i] == old(boot[i])
    ensures Titled(boot[..], at, title, kindName) && boot[510] == 0x55 && boot[511] == 0xAA
  {
    boot[at], boot[at + 2] := 0x80, 0x29;
    Put(boot, at + 3, [0x37, 0x12, 0x34, 0x56]);
    Put(boot, at + 7, title);
    Put(boot, at + 18, kindName);
    boot[510], boot[511] := 0x55, 0xAA;
    assert boot[..][at + 3..at + 7] == [0x37, 0x12, 0x34, 0x56];
    assert boot[..][at + 7..at + 18] == title && boot[..][at + 18..at + 26] == kindName;
  }

  /** The sizes of a FAT16 volume: the total as half a word if it fits. */
  method Sizes16(boot: array<byte>, fs: nat, total: nat)
    requires boot.Length == SECTOR && boot[17] == 0 && (forall i | 32 <= i < SECTOR :: boot[i] == 0)
    requires forall i | 19 <= i < 24 && i != 21 :: boot[i] == 0
    modifies boot
    ensures Bytes16(boot[..], fs, total)
    ensures forall i | 0 <= i < 17 || i == 21 || 24 <= i < 32 :: boot[i] == old(boot[i])
  {
    hide Byte;
    ZeroBytes();
    boot[18] := 1;
    if total <= 0xFFFF {
      boot[19], boot[20] := Byte(total, 0), Byte(total, 1);
    }
    boot[22], boot[23] := Byte(fs, 0), Byte(fs, 1);
    if total > 0xFFFF {
      Put(boot, 32, [Byte(total, 0), Byte(total, 1), Byte(total, 2), Byte(total, 3)]);
    }
  }

  lemma SameHead(a: Sector, b: Sector, spc: nat, reserved: nat, hidden: u32)
    requires BootHead(a, spc, reserved, hidden) && forall i | 11 <= i < 17 || 28 <= i < 32 :: b[i] == a[i]
    ensures BootHead(b, spc, reserved, hidden)
  {
    hide Byte;
  }

  lemma SameSizes(a: Sector, b: Sector, fs: nat, total: nat)
    requires Bytes16(a, fs, total) && forall i | 0 <= i < 36 :: b[i] == a[i]
    ensures Bytes16(b, fs, total)
  {
    hide Byte;
  }

  method Boot16(total: nat, hidden: u32, title: seq<byte>) returns (b: Sector)
    requires 1024 <= total < FAT32_FROM && |title| == 11
    ensures BootOk(b, total, hidden, title)
  {
    hide Byte, Le16, Le32, ClusterSectors, TableSectors, BootOk, Lead, Titled;
    var fs := TableSectors(total);
    var boot := new byte[SECTOR](_ => 0);
    Head(boot, 0x3C, ClusterSectors(total), RESERVED16, hidden);
    ghost var head := boot[..];
    Sizes16(boot, fs, total);
    SameHead(head, boot[..], ClusterSectors(total), RESERVED16, hidden);
    ghost var sized := boot[..];
    Tail(boot, 36, title, FAT16_NAME);
    b := boot[..];
    SameLead(head, b, 0x3C);
    SameHead(sized, b, ClusterSectors(total), RESERVED16, hidden);
    SameSizes(sized, b, fs, total);
    hide BootHead, Bytes16;
    Read16(b, fs, total, hidden, title);
  }

  method Boot32(total: nat, hidden: u32, title: seq<byte>) returns (b: Sector)
    requires FAT32_FROM <= total < WORD && |title| == 11
    ensures BootOk(b, total, hidden, title)
  {
    hide Byte, Le16, Le32, ClusterSectors, TableSectors, BootOk, Lead, Titled;
    var fs := TableSectors(total);
    var boot := new byte[SECTOR](_ => 0);
    Head(boot, 0x58, ClusterSectors(total), RESERVED32, hidden);
    ghost var head := boot[..];
    Sizes32(boot, fs, total);
    SameHead(head, boot[..], ClusterSectors(total), RESERVED32, hidden);
    ghost var sized := boot[..];
    Tail(boot, 64, title, FAT32_NAME);
    b := boot[..];
    SameLead(head, b, 0x58);
    SameHead(sized, b, ClusterSectors(total), RESERVED32, hidden);
    SameSizes32(sized, b, fs, total);
    hide BootHead, Bytes32;
    Read32(b, fs, total, hidden, title);
  }

  /** The sizes of a FAT32 volume, the cluster of its root, and the places of information sector and backup. */
  method Sizes32(boot: array<byte>, fs: nat, total: nat)
    requires boot.Length == SECTOR && boot[17] == 0 && boot[18] == 0 && (forall i | 32 <= i < SECTOR :: boot[i] == 0)
    requires forall i | 19 <= i < 24 && i != 21 :: boot[i] == 0
    modifies boot
    ensures Bytes32(boot[..], fs, total) && boot[48] == 1 && boot[50] == 6
    ensures forall i | 0 <= i < 32 :: boot[i] == old(boot[i])
  {
    hide Byte;
    ZeroBytes();
    Put(boot, 32, [Byte(total, 0), Byte(total, 1), Byte(total, 2), Byte(total, 3)]);
    Put(boot, 36, [Byte(fs, 0), Byte(fs, 1), Byte(fs, 2), Byte(fs, 3)]);
    boot[44], boot[48], boot[50] := 2, 1, 6;
  }

  lemma SameSizes32(a: Sector, b: Sector, fs: nat, total: nat)
    requires Bytes32(a, fs, total) && forall i | 0 <= i < 64 :: b[i] == a[i]
    ensures Bytes32(b, fs, total)
  {
    hide Byte;
  }

  lemma ZeroBytes()
    ensures Byte(0, 0) == 0 && Byte(0, 1) == 0 && Byte(0, 2) == 0 && Byte(0, 3) == 0
    ensures Byte(2, 0) == 2 && Byte(2, 1) == 0 && Byte(2, 2) == 0 && Byte(2, 3) == 0
  {
  }

  lemma Read16(b: Sector, fs: nat, total: nat, hidden: u32, title: seq<byte>)
    requires 1024 <= total < FAT32_FROM && |title| == 11 && fs == TableSectors(total)
    requires Lead(b, 0x3C) && Titled(b, 36, title, FAT16_NAME)
    requires BootBytes(b, ClusterSectors(total), RESERVED16, hidden) && Bytes16(b, fs, total)
    ensures BootOk(b, total, hidden, title)
  {
    hide Byte, Le16, Le32, ClusterSectors, TableSectors, Lead, Titled;
    TableSize(total);
    PlanFits(total);
    FieldConstants(b, RESERVED16);
    RootEntries(b);
    HalfAt(b, 19, if total <= 0xFFFF then total else 0);
    HalfAt(b, 22, fs);
    WordAt(b, 28, hidden);
    WordAt(b, 32, if total <= 0xFFFF then 0 else total);
  }

  lemma Read32(b: Sector, fs: nat, total: nat, hidden: u32, title: seq<byte>)
    requires FAT32_FROM <= total < WORD && |title| == 11 && fs == TableSectors(total)
    requires Lead(b, 0x58) && Titled(b, 64, title, FAT32_NAME) && b[48] == 1 && b[50] == 6
    requires BootBytes(b, ClusterSectors(total), RESERVED32, hidden) && Bytes32(b, fs, total)
    ensures BootOk(b, total, hidden, title)
  {
    hide Byte, Le16, Le32, ClusterSectors, TableSectors, Lead, Titled;
    TableSize(total);
    PlanFits(total);
    FieldConstants(b, RESERVED32);
    RootEntries(b);
    HalfAt(b, 19, 0);
    HalfAt(b, 22, 0);
    WordAt(b, 28, hidden);
    WordAt(b, 32, total);
    WordAt(b, 36, fs);
    WordAt(b, 44, 2);
  }

  lemma FieldConstants(b: Sector, reserved: byte)
    requires b[11] == 0 && b[12] == 2 && b[14] == reserved && b[15] == 0
    ensures Le16(b, 11) == SECTOR && Le16(b, 14) == reserved
  {
  }

  lemma RootEntries(b: Sector)
    requires b[17] == 0
    ensures Le16(b, 17) == 256 * b[18] as int
  {
  }

  /** Sector `b` holds the word `v` at `at`. */
  ghost predicate Word(b: Sector, at: nat, v: nat)
    requires at + 4 <= SECTOR
  {
    b[at] == Byte(v, 0) && b[at + 1] == Byte(v, 1) && b[at + 2] == Byte(v, 2) && b[at + 3] == Byte(v, 3)
  }

  ghost predicate Half(b: Sector, at: nat, v: nat)
    requires at + 2 <= SECTOR
  {
    b[at] == Byte(v, 0) && b[at + 1] == Byte(v, 1)
  }

  /** The bytes common to both boot sectors. */
  ghost predicate BootHead(b: Sector, spc: nat, reserved: nat, hidden: u32) {
    && b[11] == 0 && b[12] == 2 && b[13] == spc && b[14] == reserved && b[15] == 0 && b[16] == 2 && Word(b, 28, hidden)
  }

  ghost predicate BootBytes(b: Sector, spc: nat, reserved: nat, hidden: u32) {
    BootHead(b, spc, reserved, hidden) && b[510] == 0x55 && b[511] == 0xAA
  }

  ghost predicate Bytes16(b: Sector, fs: nat, total: nat) {
    && b[17] == 0 && b[18] == 1 && Half(b, 19, if total <= 0xFFFF then total else 0) && Half(b, 22, fs)
    && Word(b, 32, if total <= 0xFFFF then 0 else total)
  }

  ghost predicate Bytes32(b: Sector, fs: nat, total: nat) {
    && b[17] == 0 && b[18] == 0 && Half(b, 19, 0) && Half(b, 22, 0)
    && Word(b, 32, total) && Word(b, 36, fs) && Word(b, 44, 2)
  }

  // ---- the formatter ----

  /** The first sector of both tables, then zeros in step. */
  method WriteTables(disk: Disk, l: Layout, first: Sector)
    requires disk.reliable && l.fatSectors > 0 && l.Fits(disk.sectors)
    modifies disk
    ensures |disk.sectors| == |old(disk.sectors)|
    ensures l.Of(disk.sectors).fat1 == Image(first, l.fatSectors) == l.Of(disk.sectors).fat2
    ensures forall i | 0 <= i < |disk.sectors| && !(l.fatLba <= i < l.fatLba + 2 * l.fatSectors) ::
      disk.sectors[i] == old(disk.sectors)[i]
  {
    hide ZERO;
    var fs := l.fatSectors;
    WriteSector(disk, l.fatLba, first);
    WriteSector(disk, l.fatLba + fs, first);
    var s := 1;
    while s < fs
      invariant 1 <= s <= fs && |disk.sectors| == |old(disk.sectors)|
      invariant forall k | 0 <= k < s ::
        disk.sectors[l.fatLba + k] == Image(first, fs)[k] == disk.sectors[l.fatLba + fs + k]
      invariant forall i | 0 <= i < |disk.sectors| && !(l.fatLba <= i < l.fatLba + 2 * fs) ::
        disk.sectors[i] == old(disk.sectors)[i]
    {
      WriteSector(disk, l.fatLba + s, ZERO);
      WriteSector(disk, l.fatLba + fs + s, ZERO);
      s := s + 1;
    }
    RegionsAre(disk.sectors, l, Image(first, fs));
  }

  lemma RegionsAre(disk: seq<Sector>, l: Layout, t: seq<Sector>)
    requires l.Fits(disk) && |t| == l.fatSectors
    requires forall k | 0 <= k < |t| :: disk[l.fatLba + k] == t[k] == disk[l.fatLba + l.fatSectors + k]
    ensures l.Of(disk).fat1 == t == l.Of(disk).fat2
  {
  }

  method ZeroSectors(disk: Disk, lba: nat, n: nat)
    requires disk.reliable && lba + n <= |disk.sectors|
    modifies disk
    ensures |disk.sectors| == |old(disk.sectors)| && disk.sectors[lba..lba + n] == seq(n, _ => ZERO)
    ensures forall i | 0 <= i < |disk.sectors| && !(lba <= i < lba + n) :: disk.sectors[i] == old(disk.sectors)[i]
  {
    hide ZERO;
    var s := 0;
    while s < n
      invariant 0 <= s <= n && |disk.sectors| == |old(disk.sectors)|
      invariant forall i | 0 <= i < |disk.sectors| ::
        disk.sectors[i] == if lba <= i < lba + s then ZERO else old(disk.sectors)[i]
    {
      WriteSector(disk, lba + s, ZERO);
      s := s + 1;
    }
  }

  /** The information sector: three signatures, counts unknown. */
  ghost predicate IsInfo(s: Sector) {
    && s[0..4] == [0x52, 0x52, 0x61, 0x41] && s[484..488] == [0x72, 0x72, 0x41, 0x61]
    && s[488..496] == seq(8, _ => 0xFF) && s[508..512] == [0, 0, 0x55, 0xAA]
  }

  /** A freshly written volume: boot sector, two equal tables, an empty root. */
  ghost predicate Formatted(ss: seq<Sector>, hidden: u32, title: seq<byte>)
    requires 1024 <= |ss| < WORD && |title| == 11
  {
    var s := Plan(|ss|);
    && BootOk(ss[0], |ss|, hidden, title) && s.layout.Fits(ss) && s.layout.dataLba + s.secPerCluster <= |ss|
    && var parts, first := s.layout.Of(ss), if s.kind.Fat16? then FIRST16 else FIRST32;
    && parts.fat1 == Image(first, s.layout.fatSectors) == parts.fat2
    && (s.kind.Fat16? ==> parts.root == seq(ROOT16, _ => ZERO))
    && (s.kind.Fat32? ==>
          parts.data[..s.secPerCluster] == seq(s.secPerCluster, _ => ZERO) && ss[6] == ss[0] && ss[7] == ss[1]
          && IsInfo(ss[1]))
  }

  /** Sectors behind the root are left as they were. */
  ghost predicate DataKept(ss: seq<Sector>, before: seq<Sector>)
    requires 1024 <= |ss| < WORD && |before| == |ss|
  {
    var s := Plan(|ss|);
    forall i | s.layout.dataLba + (if s.kind.Fat32? then s.secPerCluster else 0) <= i < |ss| :: ss[i] == before[i]
  }

  method FsFormat(disk: Disk, hidden: u32, title: seq<byte>) returns (ok: bool)
    requires disk.reliable && |disk.sectors| < WORD && |title| == 11
    modifies disk
    ensures |disk.sectors| == |old(disk.sectors)| && (ok <==> |disk.sectors| >= 1024)
    ensures if ok then Formatted(disk.sectors, hidden, title) && DataKept(disk.sectors, old(disk.sectors))
            else disk.sectors == old(disk.sectors)
  {
    hide BootOk, IsInfo, Image, Plan, Layout.Of, Layout.Fits, ZERO, FIRST16, FIRST32, Formatted, DataKept;
    if |disk.sectors| < 1024 {
      return false;
    }
    if |disk.sectors| < FAT32_FROM {
      FormatFat16(disk, hidden, title);
    } else {
      FormatFat32(disk, hidden, title);
    }
    ok := true;
  }

  method FormatFat16(disk: Disk, hidden: u32, title: seq<byte>)
    requires disk.reliable && 1024 <= |disk.sectors| < FAT32_FROM && |title| == 11
    modifies disk
    ensures |disk.sectors| == |old(disk.sectors)|
    ensures Formatted(disk.sectors, hidden, title) && DataKept(disk.sectors, old(disk.sectors))
  {
    hide BootOk, IsInfo, Image, ZERO, FIRST16, FIRST32, TableSectors, ClusterSectors;
    var total := |disk.sectors|;
    PlanFits(total);
    TableSize(total);
    var l := Plan(total).layout;
    var boot := Boot16(total, hidden, title);
    WriteSector(disk, 0, boot);
    WriteTables(disk, l, FIRST16);
    ghost var written := disk.sectors;
    ZeroSectors(disk, l.rootLba, ROOT16);
    SameTables(l, written, disk.sectors);
  }

  lemma SameTables(l: Layout, a: seq<Sector>, b: seq<Sector>)
    requires l.Fits(a) && |b| == |a|
    requires forall i | l.fatLba <= i < l.fatLba + 2 * l.fatSectors :: b[i] == a[i]
    ensures l.Of(b).fat1 == l.Of(a).fat1 && l.Of(b).fat2 == l.Of(a).fat2
  {
  }

  method FormatFat32(disk: Disk, hidden: u32, title: seq<byte>)
    requires disk.reliable && FAT32_FROM <= |disk.sectors| < WORD && |title| == 11
    modifies disk
    ensures |disk.sectors| == |old(disk.sectors)|
    ensures Formatted(disk.sectors, hidden, title) && DataKept(disk.sectors, old(disk.sectors))
  {
    hide BootOk, IsInfo, Image, ZERO, FIRST16, FIRST32, TableSectors, ClusterSectors;
    var total := |disk.sectors|;
    PlanFits(total);
    TableSize(total);
    var l := Plan(total).layout;
    var boot := Boot32(total, hidden, title);
    WriteReserved(disk, boot);
    WriteTables(disk, l, FIRST32);
    ghost var written := disk.sectors;
    ZeroSectors(disk, l.dataLba, ClusterSectors(total));
    SameTables(l, written, disk.sectors);
    var spc := ClusterSectors(total);
    FirstData(l, disk.sectors, spc);
  }

  lemma FirstData(l: Layout, ss: seq<Sector>, n: nat)
    requires l.Fits(ss) && l.dataLba + n <= |ss|
    ensures n <= |l.Of(ss).data| && l.Of(ss).data[..n] == ss[l.dataLba..l.dataLba + n]
  {
  }

  /** Boot and information sector, each with its backup. */
  method WriteReserved(disk: Disk, boot: Sector)
    requires disk.reliable && |disk.sectors| >= RESERVED32
    modifies disk
    ensures |disk.sectors| == |old(disk.sectors)|
    ensures disk.sectors[0] == boot == disk.sectors[6] && disk.sectors[7] == disk.sectors[1] && IsInfo(disk.sectors[1])
    ensures forall i | RESERVED32 <= i < |disk.sectors| :: disk.sectors[i] == old(disk.sectors)[i]
  {
    WriteSector(disk, 0, boot);
    WriteSector(disk, 6, boot);
    var info := FsInfo();
    WriteSector(disk, 1, info);
    WriteSector(disk, 7, info);
  }

  method FsInfo() returns (s: Sector)
    ensures IsInfo(s)
  {
    var info := new byte[SECTOR](_ => 0);
    Put(info, 0, [0x52, 0x52, 0x61, 0x41]);
    Put(info, 484, [0x72, 0x72, 0x41, 0x61]);
    Put(info, 488, seq(8, _ => 0xFF));
    info[510], info[511] := 0x55, 0xAA;
    s := info[..];
  }
}
