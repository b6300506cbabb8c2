/** Bytes, 32-bit words, little-endian fields and in-place stores into byte sequences. */
module Bytes {
  type byte = b: int | 0 <= b < 256
  type u16 = x: int | 0 <= x < 0x1_0000
  type u32 = x: int | 0 <= x < 0x1_0000_0000

  const SECTOR := 512

  /** The little-endian words at position `o` of a buffer. */
  function Le16(b: seq<byte>, o: nat): u16
    requires o + 2 <= |b|
  {
    b[o] as int + 256 * b[o + 1] as int
  }

  function Le32(b: seq<byte>, o: nat): u32
    requires o + 4 <= |b|
  {
    Le16(b, o) + 0x1_0000 * Le16(b, o + 2)
  }

  function Byte(v: nat, k: nat): byte
    requires k < 4
  {
    if k == 0 then v % 256
    else if k == 1 then v / 256 % 256
    else if k == 2 then v / 256 / 256 % 256
    else v / 256 / 256 / 256 % 256
  }

  lemma SumOfBytes(v: u32)
    ensures Byte(v, 0) + 256 * Byte(v, 1) + 0x1_0000 * (Byte(v, 2) + 256 * Byte(v, 3)) == v
    ensures v < 0x1_0000 ==> Byte(v, 0) + 256 * Byte(v, 1) == v
  {
  }

  /** The bytes of a word, stored one behind the other, are read as that word. */
  lemma WordAt(b: seq<byte>, o: nat, v: u32)
    requires o + 4 <= |b|
    requires b[o] == Byte(v, 0) && b[o + 1] == Byte(v, 1) && b[o + 2] == Byte(v, 2) && b[o + 3] == Byte(v, 3)
    ensures Le32(b, o) == v
  {
    hide Byte;
    SumOfBytes(v);
  }

  lemma HalfAt(b: seq<byte>, o: nat, v: u16)
    requires o + 2 <= |b| && b[o] == Byte(v, 0) && b[o + 1] == Byte(v, 1)
    ensures Le16(b, o) == v
  {
    hide Byte;
    SumOfBytes(v);
  }

  /** `s` with `t` stored at position `at` (a memcpy into a buffer, a write to a disk). */
  function Splice<T>(s: seq<T>, at: nat, t: seq<T>): (r: seq<T>)
    requires at + |t| <= |s|
    ensures |r| == |s|
  {
    s[..at] + t + s[at + |t|..]
  }

  lemma SpliceAt<T>(s: seq<T>, at: nat, t: seq<T>, i: nat)
    requires at + |t| <= |s| && i < |s|
    ensures Splice(s, at, t)[i] == if at <= i < at + |t| then t[i - at] else s[i]
  {
  }

  lemma SpliceApart<T>(s: seq<T>, at: nat, t: seq<T>, lo: nat, hi: nat)
    requires at + |t| <= |s| && lo <= hi <= |s| && (hi <= at || at + |t| <= lo)
    ensures Splice(s, at, t)[lo..hi] == s[lo..hi]
  {
  }

  lemma SpliceInside<T>(s: seq<T>, at: nat, t: seq<T>, lo: nat, hi: nat)
    requires lo <= at && at + |t| <= hi <= |s|
    ensures Splice(s, at, t)[lo..hi] == Splice(s[lo..hi], at - lo, t)
    ensures Splice(s, at, t)[at..at + |t|] == t
  {
    assert s[..at][lo..] == s[lo..hi][..at - lo];
    assert s[at + |t|..][..hi - at - |t|] == s[lo..hi][at - lo + |t|..];
  }

  lemma MulLe(a: nat, b: nat, m: nat)
    ensures a <= b ==> a * m <= b * m
  {
  }

  /** Division and remainder are the only way to write p as q * m + r. */
  lemma DivModUnique(p: nat, m: nat, q: nat, r: nat)
    requires m > 0 && r < m && p == q * m + r
    ensures p / m == q && p % m == r
  {
    MulLe(p / m + 1, q, m);
    MulLe(q + 1, p / m, m);
    assert p / m * m + p % m == p;
  }

  // ---- positions in a run of equal blocks ----

  function Quot(p: nat, m: nat): nat { if m > 0 then p / m else 0 }
  function Rem(p: nat, m: nat): nat { if m > 0 then p % m else 0 }

  /** Position `o` of block `q`. */
  function Pos(q: nat, m: nat, o: nat): nat { q * m + o }

  /** Where position p lies: its block, and before or after which positions of block q it comes. */
  lemma Located(p: nat, m: nat, q: nat, o: nat)
    requires m > 0 && o <= m
    ensures Pos(Quot(p, m), m, Rem(p, m)) == p && Rem(p, m) < m
    ensures Quot(p, m) == q ==> p + o == Pos(q, m, o) + Rem(p, m)
    ensures Quot(p, m) < q ==> p < Pos(q, m, 0)
    ensures Quot(p, m) > q ==> p >= Pos(q, m, m)
    ensures Pos(q, m, o) == Pos(q, m, 0) + o && Pos(q, m, m) == Pos(q, m, 0) + m == Pos(q + 1, m, 0)
  {
    DivMod(p, m);
    Distribute(q, m);
    hide Quot, Rem;
    var k := Quot(p, m);
    if k < q {
      MulLe(k + 1, q, m);
      Distribute(k, m);
    } else if k > q {
      MulLe(q + 1, k, m);
    }
  }

  lemma DivMod(p: nat, m: nat)
    requires m > 0
    ensures Quot(p, m) * m + Rem(p, m) == p && Rem(p, m) < m
  {
    assert p / m * m + p % m == p;
  }

  lemma Distribute(q: nat, m: nat)
    ensures (q + 1) * m == q * m + m
  {
  }

  lemma PosMonotone(a: nat, b: nat, m: nat)
    ensures a <= b ==> Pos(a, m, 0) <= Pos(b, m, 0)
  {
    MulLe(a, b, m);
  }

  lemma PosInBlock(idx: nat, m: nat, o: nat, n: nat, k: nat)
    requires o + n <= m && idx < k
    ensures Pos(idx, m, o) + n <= Pos(k, m, 0)
  {
    MulLe(idx + 1, k, m);
  }
}
