/** The block device: an array of sectors, read and written in whole sectors. */
module Disks {
  import opened Bytes

  type Sector = s: seq<byte> | |s| == SECTOR witness seq(SECTOR, _ => 0)

  /** The bytes of consecutive sectors, as one buffer. */
  function Join(ss: seq<Sector>): (b: seq<byte>)
    ensures |b| == |ss| * SECTOR
  {
    if ss == [] then [] else ss[0] + Join(ss[1..])
  }

  /** A buffer of whole sectors, cut into sectors. */
  function Cut(b: seq<byte>): (ss: seq<Sector>)
    requires |b| % SECTOR == 0
    ensures |ss| * SECTOR == |b|
  {
    if |b| == 0 then [] else [b[..SECTOR]] + Cut(b[SECTOR..])
  }

  lemma {:induction false} JoinCut(b: seq<byte>)
    requires |b| % SECTOR == 0
    ensures Join(Cut(b)) == b
  {
    if |b| > 0 {
      JoinCut(b[SECTOR..]);
      assert Cut(b)[1..] == Cut(b[SECTOR..]);
    }
  }

  lemma {:induction false} CutJoin(ss: seq<Sector>)
    ensures Cut(Join(ss)) == ss
  {
    if ss != [] {
      CutJoin(ss[1..]);
      assert Join(ss)[SECTOR..] == Join(ss[1..]);
    }
  }

  lemma OneSector(s: Sector)
    ensures Cut(s) == [s] && Join([s]) == s
  {
    assert s[..SECTOR] == s && s[SECTOR..] == [];
    assert [s][1..] == [];
  }

  /** A store inside sector `s` is a store into the joined buffer. */
  lemma {:induction false} JoinStore(ss: seq<Sector>, s: nat, o: nat, b: seq<byte>)
    requires s < |ss| && o + |b| <= SECTOR
    ensures Join(ss[s := Splice(ss[s], o, b)]) == Splice(Join(ss), s * SECTOR + o, b)
  {
    if s > 0 {
      JoinStore(ss[1..], s - 1, o, b);
      assert ss[s := Splice(ss[s], o, b)][1..] == ss[1..][s - 1 := Splice(ss[s], o, b)];
    } else {
      assert ss[s := Splice(ss[s], o, b)][1..] == ss[1..];
    }
  }

  lemma {:induction false} JoinAt(ss: seq<Sector>, s: nat, o: nat)
    requires s < |ss| && o < SECTOR
    ensures Join(ss)[s * SECTOR + o] == ss[s][o]
  {
    if s > 0 {
      JoinAt(ss[1..], s - 1, o);
    }
  }

  lemma JoinIndex(ss: seq<Sector>, p: nat, k: nat)
    requires p / SECTOR < |ss| && p % SECTOR + k < SECTOR
    ensures p + k < |ss| * SECTOR && Join(ss)[p + k] == ss[p / SECTOR][p % SECTOR + k]
  {
    JoinAt(ss, p / SECTOR, p % SECTOR + k);
    assert p / SECTOR * SECTOR + p % SECTOR == p;
  }

  class Disk {
    /** A reliable disk fails only when the range is outside the device. */
    const reliable: bool
    var sectors: seq<Sector>

    constructor (sectors: seq<Sector>, reliable: bool)
      ensures this.sectors == sectors && this.reliable == reliable
    {
      this.sectors := sectors;
      this.reliable := reliable;
    }

    method Read(lba: nat, count: nat) returns (ok: bool, buf: seq<byte>)
      ensures |buf| == count * SECTOR
      ensures ok ==> lba + count <= |sectors| && buf == Join(sectors[lba..lba + count])
      ensures reliable && lba + count <= |sectors| ==> ok
    {
      ok := *;
      ok := (reliable || ok) && lba + count <= |sectors|;
      if ok {
        buf := Join(sectors[lba..lba + count]);
      } else {
        buf := seq(count * SECTOR, _ => 0);
      }
    }

    /** A failed write may leave anything in the range it was given, and only there: `landed` is what the range
        holds. */
    method Write(lba: nat, count: nat, buf: seq<byte>) returns (ok: bool, ghost landed: seq<Sector>)
      requires |buf| == count * SECTOR
      modifies this
      ensures |landed| == count && (ok ==> landed == Cut(buf))
      ensures lba + count <= |old(sectors)| ==> sectors == Splice(old(sectors), lba, landed)
      ensures lba + count > |old(sectors)| ==> !ok && sectors == old(sectors)
      ensures reliable && lba + count <= |sectors| ==> ok
    {
      ok := *;
      ok := (reliable || ok) && lba + count <= |sectors|;
      landed := Cut(buf);
      if ok {
        sectors := Splice(sectors, lba, Cut(buf));
      } else if lba + count <= |sectors| {
        var junk: seq<Sector> := *;
        if |junk| == count {
          landed := junk;
          sectors := Splice(sectors, lba, junk);
        } else {
          landed := sectors[lba..lba + count];
          assert sectors == Splice(sectors, lba, landed);
        }
      }
    }
  }

  method WriteSector(disk: Disk, lba: nat, s: Sector)
    requires disk.reliable && lba < |disk.sectors|
    modifies disk
    ensures disk.sectors == old(disk.sectors)[lba := s]
  {
    OneSector(s);
    var ok, landed := disk.Write(lba, 1, s);
  }
}
