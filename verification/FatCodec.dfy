/** The three on-disk encodings of a file allocation table, as pure functions on the table's bytes. */
module FatCodec {
  import opened Bytes

  datatype Kind = Fat12 | Fat16 | Fat32

  /** First table value that ends a chain. */
  function Eof(kind: Kind): nat {
    match kind
    case Fat12 => 0xFF8
    case Fat16 => 0xFFF8
    case Fat32 => 0x0FFF_FFF8
  }

  /** One past the largest value an entry can hold. */
  function Radix(kind: Kind): nat {
    match kind
    case Fat12 => 0x1000
    case Fat16 => 0x1_0000
    case Fat32 => 0x1000_0000
  }

  /** Number of entries a table of `sectors` sectors holds. */
  function MaxCluster(kind: Kind, sectors: nat): nat {
    match kind
    case Fat12 => sectors * SECTOR * 2 / 3
    case Fat16 => sectors * SECTOR / 2
    case Fat32 => sectors * SECTOR / 4
  }

  function EntryOffset(kind: Kind, c: nat): nat {
    match kind
    case Fat12 => c + c / 2
    case Fat16 => 2 * c
    case Fat32 => 4 * c
  }

  function EntryWidth(kind: Kind): nat {
    if kind.Fat32? then 4 else 2
  }

  /** Every entry below MaxCluster lies inside the table, the packed 12-bit ones included. */
  lemma EntryInBounds(kind: Kind, sectors: nat, c: nat)
    requires c < MaxCluster(kind, sectors)
    ensures EntryOffset(kind, c) + EntryWidth(kind) <= sectors * SECTOR
    ensures !kind.Fat12? ==> EntryOffset(kind, c) % SECTOR + EntryWidth(kind) <= SECTOR
    ensures !kind.Fat12? ==> EntryOffset(kind, c) / SECTOR < sectors
  {
    match kind
    case Fat12 => assert 3 * (c + 1) <= 2 * sectors * SECTOR;
    case Fat16 => DivModUnique(2 * c, SECTOR, c / 256, 2 * (c % 256));
    case Fat32 => DivModUnique(4 * c, SECTOR, c / 128, 4 * (c % 128));
  }

  /** The table holds exactly the entries whose 12, 16 or 32 bits lie inside it, one behind the other, and the last
      eight values an entry can have end a chain. */
  lemma EntryBits(kind: Kind, sectors: nat, c: nat)
    ensures var bits := match kind { case Fat12 => 12 case Fat16 => 16 case Fat32 => 32 };
      && (c < MaxCluster(kind, sectors) <==> (c + 1) * bits <= 8 * 512 * sectors)
      && EntryOffset(kind, c) == c * bits / 8 && Eof(kind) + 8 == Radix(kind)
  {
    match kind
    case Fat12 => DivModUnique(3 * c, 2, c + c / 2, c % 2);
    case Fat16 =>
    case Fat32 =>
  }

  /** The value of an entry whose bytes are `b`. */
  function Value(kind: Kind, odd: bool, b: seq<byte>): (v: nat)
    requires |b| == EntryWidth(kind)
    ensures v < Radix(kind)
  {
    match kind
    case Fat12 => if odd then Le16(b, 0) / 16 else Le16(b, 0) % 0x1000
    case Fat16 => Le16(b, 0)
    case Fat32 => Le32(b, 0) % 0x1000_0000
  }

  function Entry(kind: Kind, t: seq<byte>, c: nat): (v: nat)
    requires EntryOffset(kind, c) + EntryWidth(kind) <= |t|
    ensures v < Radix(kind)
  {
    Value(kind, c % 2 == 1, t[EntryOffset(kind, c)..EntryOffset(kind, c) + EntryWidth(kind)])
  }

  /** On the bytes, low byte first: three half bytes, two bytes, or four bytes without the upper half of the last. */
  lemma EntryDigits(kind: Kind, t: seq<byte>, c: nat)
    requires EntryOffset(kind, c) + EntryWidth(kind) <= |t|
    ensures kind.Fat12? ==> 3 * c + 2 < 2 * |t| && Entry(kind, t, c) == Halves(t, 3 * c)
    ensures kind.Fat16? ==> Entry(kind, t, c) == t[2 * c] as int + 0x100 * t[2 * c + 1] as int
    ensures kind.Fat32? ==> Entry(kind, t, c) == LowBits(t, 4 * c)
  {
    hide Halves;
    var o, w := EntryOffset(kind, c), EntryWidth(kind);
    var b := t[o..o + w];
    assert forall i | 0 <= i < w :: b[i] == t[o + i];
    if kind.Fat12? {
      Nibbles(b);
      Halving(t, c);
    } else if kind.Fat32? {
      TopDropped(b);
    }
  }

  /** The half bytes of packed entry `c` in its two bytes. */
  lemma Halving(t: seq<byte>, c: nat)
    requires c + c / 2 + 2 <= |t|
    ensures var o := c + c / 2;
      && 3 * c + 2 < 2 * |t|
      && Halves(t, 3 * c) == if c % 2 == 1 then t[o] as int / 16 + 16 * t[o + 1] as int
                             else t[o] as int + 256 * (t[o + 1] as int % 16)
  {
    assert 3 * c == 2 * (c + c / 2) + c % 2;
  }

  function LowBits(t: seq<byte>, o: nat): int
    requires o + 4 <= |t|
  {
    t[o] as int + 0x100 * t[o + 1] as int + 0x1_0000 * t[o + 2] as int + 0x100_0000 * (t[o + 3] as int % 16)
  }

  /** Half byte `j` of a table, the lower half of each byte first. */
  function HalfByte(t: seq<byte>, j: nat): int
    requires j < 2 * |t|
  {
    if j % 2 == 0 then t[j / 2] as int % 16 else t[j / 2] as int / 16
  }

  function Halves(t: seq<byte>, j: nat): int
    requires j + 2 < 2 * |t|
  {
    HalfByte(t, j) + 16 * HalfByte(t, j + 1) + 256 * HalfByte(t, j + 2)
  }

  lemma TopDropped(b: seq<byte>)
    requires |b| == 4
    ensures Le32(b, 0) % 0x1000_0000 == LowBits(b, 0)
  {
    DivModUnique(Le32(b, 0), 0x1000_0000, b[3] as int / 16, LowBits(b, 0));
  }

  /** The word written back when the word `cur` around an entry gets the new value `val`. */
  function Merge(kind: Kind, odd: bool, cur: u32, val: nat): nat {
    match kind
    case Fat12 => if odd then cur % 16 + val % 0x1000 * 16 else cur / 0x1000 * 0x1000 + val % 0x1000
    case Fat16 => val % 0x1_0000
    case Fat32 => cur / 0x1000_0000 * 0x1000_0000 + val % 0x1000_0000
  }

  /** The bytes of an entry, `old` before, when it is set to `val`. */
  function NewBytes(kind: Kind, odd: bool, old_: seq<byte>, val: nat): (b: seq<byte>)
    requires |old_| == EntryWidth(kind)
    ensures |b| == EntryWidth(kind)
  {
    if kind.Fat32? then
      var n := Merge(kind, odd, Le32(old_, 0), val);
      [Byte(n, 0), Byte(n, 1), Byte(n, 2), Byte(n, 3)]
    else
      var n := Merge(kind, odd, Le16(old_, 0), val);
      [Byte(n, 0), Byte(n, 1)]
  }

  /** The bytes stored for entry `c` when it is set to `val`. */
  function EntryBytes(kind: Kind, t: seq<byte>, c: nat, val: nat): (b: seq<byte>)
    requires EntryOffset(kind, c) + EntryWidth(kind) <= |t|
    ensures |b| == EntryWidth(kind)
  {
    var o := EntryOffset(kind, c);
    NewBytes(kind, c % 2 == 1, t[o..o + EntryWidth(kind)], val)
  }

  function PutEntry(kind: Kind, t: seq<byte>, c: nat, val: nat): seq<byte>
    requires EntryOffset(kind, c) + EntryWidth(kind) <= |t|
  {
    Splice(t, EntryOffset(kind, c), EntryBytes(kind, t, c, val))
  }

  /** The nibbles of a little-endian pair of bytes. */
  lemma Nibbles(b: seq<byte>)
    requires |b| == 2
    ensures Le16(b, 0) % 0x1000 == b[0] as int + 256 * (b[1] as int % 16)
    ensures Le16(b, 0) / 16 == b[0] as int / 16 + 16 * b[1] as int
    ensures Le16(b, 0) / 0x1000 == b[1] / 16
    ensures Le16(b, 0) % 16 == b[0] % 16
  {
    var x: int, y: int := b[0], b[1];
    var w: int, h, l := Le16(b, 0), y / 16, y % 16;
    assert w == 0x1000 * h + (x + 256 * l);
    DivModUnique(w, 0x1000, h, x + 256 * l);
    DivModUnique(w, 16, x / 16 + 16 * y, x % 16);
  }

  /** What the two bytes of a 12-bit store hold: the new entry, and the nibble that was there before. */
  lemma Stored12(b: seq<byte>, c: seq<byte>, odd: bool, val: nat)
    requires |b| == 2
    requires var n := Merge(Fat12, odd, Le16(b, 0), val); c == [Byte(n, 0), Byte(n, 1)]
    ensures odd ==> c[0] % 16 == b[0] % 16 && Le16(c, 0) / 16 == val % 0x1000
    ensures !odd ==> c[1] / 16 == b[1] / 16 && Le16(c, 0) % 0x1000 == val % 0x1000
  {
    hide Byte;
    Nibbles(b);
    Nibbles(c);
    var n, v := Merge(Fat12, odd, Le16(b, 0), val), val % 0x1000;
    if odd {
      DivModUnique(n, 16, v, b[0] as int % 16);
    } else {
      DivModUnique(n, 0x1000, b[1] as int / 16, v);
    }
    HalfAt(c, 0, n);
  }

  /** Four bytes that keep the top nibble and store a 28-bit value. */
  lemma Stored32(b: seq<byte>, c: seq<byte>, val: nat)
    requires |b| == 4
    requires var n := Merge(Fat32, false, Le32(b, 0), val); c == [Byte(n, 0), Byte(n, 1), Byte(n, 2), Byte(n, 3)]
    ensures c[3] / 16 == b[3] / 16 && Le32(c, 0) % 0x1000_0000 == val % 0x1000_0000
  {
    hide Byte;
    var v, n := val % 0x1000_0000, Merge(Fat32, false, Le32(b, 0), val);
    TopNibble(b);
    DivModUnique(n, 0x1000_0000, b[3] as int / 16, v);
    WordAt(c, 0, n);
    TopNibble(c);
  }

  /** The top nibble of a word. */
  lemma TopNibble(b: seq<byte>)
    requires |b| == 4
    ensures Le32(b, 0) / 0x1000_0000 == b[3] / 16
  {
    var low: int := b[0] as int + 0x100 * b[1] as int + 0x1_0000 * b[2] as int + 0x100_0000 * (b[3] as int % 16);
    DivModUnique(Le32(b, 0), 0x1000_0000, b[3] as int / 16, low);
  }

  /** The bytes stored for an entry decode to the value stored and keep the bits beside it. */
  lemma NewValue(kind: Kind, odd: bool, old_: seq<byte>, val: nat)
    requires |old_| == EntryWidth(kind)
    ensures Value(kind, odd, NewBytes(kind, odd, old_, val)) == val % Radix(kind)
    ensures var b := NewBytes(kind, odd, old_, val);
            && (kind.Fat12? && odd ==> b[0] % 16 == old_[0] % 16)
            && (kind.Fat12? && !odd ==> b[1] / 16 == old_[1] / 16)
            && (kind.Fat32? ==> b[3] / 16 == old_[3] / 16)
  {
    match kind
    case Fat12 => Stored12(old_, NewBytes(kind, odd, old_, val), odd, val);
    case Fat16 => HalfAt(NewBytes(kind, odd, old_, val), 0, val % 0x1_0000);
    case Fat32 => Stored32(old_, NewBytes(kind, odd, old_, val), val);
  }

  /** The entry packed next to a 12-bit entry shares one byte with it, and keeps its nibble of that byte. */
  lemma Neighbour12(t: seq<byte>, c: nat, val: nat, d: nat)
    requires EntryOffset(Fat12, c) + 2 <= |t| && EntryOffset(Fat12, d) + 2 <= |t|
    requires d == c + 1 || c == d + 1
    ensures Entry(Fat12, PutEntry(Fat12, t, c, val), d) == Entry(Fat12, t, d)
  {
    var o, p := EntryOffset(Fat12, c), EntryOffset(Fat12, d);
    var u, b := PutEntry(Fat12, t, c, val), EntryBytes(Fat12, t, c, val);
    NewValue(Fat12, c % 2 == 1, t[o..o + 2], val);
    Nibbles(t[p..p + 2]);
    Nibbles(u[p..p + 2]);
    assert u[o] == b[0] && u[o + 1] == b[1];
    if d == c + 1 {
      assert u[p + 1] == if c % 2 == 0 then t[p + 1] else u[p + 1];
    } else {
      assert u[p] == t[p];
    }
  }

  /** The table behaves as a plain array of entries under every encoding. */
  lemma PutEntryIsArrayStore(kind: Kind, t: seq<byte>, c: nat, val: nat, d: nat)
    requires EntryOffset(kind, c) + EntryWidth(kind) <= |t| && EntryOffset(kind, d) + EntryWidth(kind) <= |t|
    ensures Entry(kind, PutEntry(kind, t, c, val), d) == if d == c then val % Radix(kind) else Entry(kind, t, d)
  {
    hide Value, NewBytes;
    var o, p, w := EntryOffset(kind, c), EntryOffset(kind, d), EntryWidth(kind);
    var b := EntryBytes(kind, t, c, val);
    if c == d {
      NewValue(kind, c % 2 == 1, t[o..o + w], val);
      SpliceInside(t, o, b, o, o + w);
    } else if kind.Fat12? && (d == c + 1 || c == d + 1) {
      Neighbour12(t, c, val, d);
    } else {
      SpliceApart(t, o, b, p, p + w);
    }
  }

  /** The four bits above a 28-bit entry survive every store. */
  lemma TopNibbleKept(t: seq<byte>, c: nat, val: nat, d: nat)
    requires EntryOffset(Fat32, c) + 4 <= |t| && EntryOffset(Fat32, d) + 4 <= |t|
    ensures PutEntry(Fat32, t, c, val)[4 * d + 3] / 16 == t[4 * d + 3] / 16
  {
    hide Value, NewBytes;
    var b := EntryBytes(Fat32, t, c, val);
    NewValue(Fat32, c % 2 == 1, t[4 * c..4 * c + 4], val);
    SpliceAt(t, 4 * c, b, 4 * d + 3);
  }

  /** All entries of a table of `sectors` sectors. */
  function Entries(kind: Kind, t: seq<byte>, sectors: nat): (es: seq<nat>)
    requires |t| == sectors * SECTOR
    ensures |es| == MaxCluster(kind, sectors)
  {
    seq(MaxCluster(kind, sectors), c requires 0 <= c < MaxCluster(kind, sectors) =>
      (EntryInBounds(kind, sectors, c); Entry(kind, t, c)))
  }

  lemma EntriesAt(kind: Kind, t: seq<byte>, sectors: nat, c: nat)
    requires |t| == sectors * SECTOR && c < MaxCluster(kind, sectors)
    ensures EntryOffset(kind, c) + EntryWidth(kind) <= |t|
    ensures Entries(kind, t, sectors)[c] == Entry(kind, t, c)
  {
    EntryInBounds(kind, sectors, c);
  }

  lemma EntriesAfterPut(kind: Kind, t: seq<byte>, sectors: nat, c: nat, val: nat)
    requires |t| == sectors * SECTOR && c < MaxCluster(kind, sectors)
    ensures EntryOffset(kind, c) + EntryWidth(kind) <= |t|
    ensures Entries(kind, PutEntry(kind, t, c, val), sectors) == Entries(kind, t, sectors)[c := val % Radix(kind)]
  {
    EntryInBounds(kind, sectors, c);
    var u, es := PutEntry(kind, t, c, val), Entries(kind, t, sectors);
    forall d | 0 <= d < |es|
      ensures Entries(kind, u, sectors)[d] == es[c := val % Radix(kind)][d]
    {
      StoredAt(kind, t, sectors, c, val, d);
    }
  }

  lemma StoredAt(kind: Kind, t: seq<byte>, sectors: nat, c: nat, val: nat, d: nat)
    requires |t| == sectors * SECTOR && c < MaxCluster(kind, sectors) && d < MaxCluster(kind, sectors)
    ensures EntryOffset(kind, c) + EntryWidth(kind) <= |t|
    ensures Entries(kind, PutEntry(kind, t, c, val), sectors)[d]
         == if d == c then val % Radix(kind) else Entries(kind, t, sectors)[d]
  {
    EntriesAt(kind, t, sectors, c);
    EntriesAt(kind, t, sectors, d);
    EntriesAt(kind, PutEntry(kind, t, c, val), sectors, d);
    PutEntryIsArrayStore(kind, t, c, val, d);
  }
}
