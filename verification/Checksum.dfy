/** The Internet checksum (RFC 1071): one's-complement sum of big-endian words. */
module Checksum {
  import opened Bytes

  /** Big-endian words added up without any carry handling; an odd last byte is the high half of a word. */
  function WordSum(b: seq<byte>): nat {
    if |b| == 0 then 0
    else if |b| == 1 then 256 * b[0]
    else 256 * b[0] + b[1] + WordSum(b[2..])
  }

  /** The one's-complement sum: the number between 1 and 65535 congruent to the sum modulo 65535, or 0 for a sum of
      0. */
  function Folded(sum: nat): (f: u16)
    ensures f == 0 <==> sum == 0
  {
    if sum == 0 then 0 else (sum - 1) % 0xFFFF + 1
  }

  function ChecksumOf(b: seq<byte>): u16 { 0xFFFF - Folded(WordSum(b)) }

  lemma {:induction false} WordSumBound(b: seq<byte>)
    ensures WordSum(b) <= (|b| + 1) / 2 * 0xFFFF
  {
    if |b| >= 2 {
      WordSumBound(b[2..]);
    }
  }

  /** The sum counts each byte at an even position 256 times and each at an odd one once, the last of an odd number
      included: without byte `i` that much is missing, and without any byte the sum is 0. */
  lemma {:induction false} ByteCounts(b: seq<byte>, i: nat)
    requires i < |b|
    ensures WordSum(b) == WordSum(b[i := 0]) + (if i % 2 == 0 then 256 else 1) * b[i] as int
  {
    if i >= 2 {
      ByteCounts(b[2..], i - 2);
      assert b[i := 0][2..] == b[2..][i - 2 := 0];
    } else if |b| >= 2 {
      assert b[i := 0][2..] == b[2..];
    }
  }

  lemma {:induction false} NothingCounted(b: seq<byte>)
    requires forall i | 0 <= i < |b| :: b[i] == 0
    ensures WordSum(b) == 0
  {
    if |b| >= 2 {
      NothingCounted(b[2..]);
    }
  }

  /** Folding keeps the remainder modulo 65535, and gives no 0 for a sum other than 0. */
  lemma FoldedIs(sum: nat)
    ensures Folded(sum) % 0xFFFF == sum % 0xFFFF && (Folded(sum) == 0 <==> sum == 0)
  {
    if sum > 0 {
      var q, r := (sum - 1) / 0xFFFF, (sum - 1) % 0xFFFF;
      assert sum == r + 1 + q * 0xFFFF;
      SameRemainder(r + 1, q);
    }
  }

  /** Words in front of an even position, then words behind it. */
  lemma {:induction false} WordSumSplit(b: seq<byte>, o: nat)
    requires o <= |b| && o % 2 == 0
    ensures WordSum(b) == WordSum(b[..o]) + WordSum(b[o..])
  {
    if o == 0 {
      assert b[0..] == b;
    } else {
      WordSumSplit(b[2..], o - 2);
      assert b[2..][..o - 2] == b[..o][2..] && b[2..][o - 2..] == b[o..];
    }
  }

  /** One round of adding the carries keeps the one's-complement sum and makes the number smaller. */
  lemma FoldStep(sum: nat)
    requires sum >= 0x1_0000
    ensures var next := sum % 0x1_0000 + sum / 0x1_0000; 0 < next < sum && Folded(next) == Folded(sum)
  {
    var hi, lo := sum / 0x1_0000, sum % 0x1_0000;
    assert sum == hi * 0x1_0000 + lo;
    SameRemainder(lo + hi - 1, hi);
    assert lo + hi - 1 + hi * 0xFFFF == sum - 1;
  }

  lemma {:induction false} SameRemainder(a: nat, k: nat)
    ensures (a + k * 0xFFFF) % 0xFFFF == a % 0xFFFF
  {
    if k > 0 {
      SameRemainder(a, k - 1);
      OneMore(a + (k - 1) * 0xFFFF);
      assert a + (k - 1) * 0xFFFF + 0xFFFF == a + k * 0xFFFF;
    }
  }

  lemma OneMore(x: nat)
    ensures (x + 0xFFFF) % 0xFFFF == x % 0xFFFF
  {
  }

  /** No more than 2^17 bytes, so that the 32-bit sum cannot overflow; the driver's packets are far smaller. */
  method IpChecksum(data: seq<byte>) returns (c: u16)
    requires |data| <= 0x2_0000
    ensures c == ChecksumOf(data)
  {
    var sum: u32 := 0;
    var p: nat := 0;
    while |data| - p >= 2
      invariant p <= |data| && p % 2 == 0 && sum + WordSum(data[p..]) == WordSum(data)
      invariant sum <= p / 2 * 0xFFFF
    {
      assert data[p..][2..] == data[p + 2..];
      sum := sum + (256 * data[p] as int + data[p + 1] as int);
      p := p + 2;
    }
    if |data| - p > 0 {
      sum := sum + 256 * data[p] as int;
    }
    assert sum == WordSum(data);
    while sum >= 0x1_0000
      invariant Folded(sum) == Folded(WordSum(data))
    {
      FoldStep(sum);
      sum := sum % 0x1_0000 + sum / 0x1_0000;
    }
    SmallFolded(sum);
    c := 0xFFFF - sum;
  }

  lemma SmallFolded(sum: nat)
    requires sum < 0x1_0000
    ensures Folded(sum) == sum
  {
  }

  /** `data` with the word `c` stored, high byte first, at offset `o`. */
  function WithWord(data: seq<byte>, o: nat, c: u16): (r: seq<byte>)
    requires o + 2 <= |data|
    ensures |r| == |data|
  {
    data[..o] + [c / 256, c % 256] + data[o + 2..]
  }

  lemma WordAt(data: seq<byte>, o: nat, c: u16)
    requires o + 2 <= |data| && o % 2 == 0 && data[o] == 0 && data[o + 1] == 0
    ensures WordSum(WithWord(data, o, c)) == WordSum(data) + c
  {
    var d := WithWord(data, o, c);
    WordSumSplit(data, o);
    WordSumSplit(d, o);
    assert d[..o] == data[..o] && d[o..][2..] == data[o..][2..];
    assert d[o..][0] == c / 256 && d[o..][1] == c % 256 && data[o..][0] == 0 && data[o..][1] == 0;
  }

  /** Storing the checksum in its zeroed field makes the checksum of the whole 0, for even and odd lengths. */
  lemma StoredVerifies(data: seq<byte>, o: nat)
    requires o + 2 <= |data| && o % 2 == 0 && data[o] == 0 && data[o + 1] == 0
    ensures ChecksumOf(WithWord(data, o, ChecksumOf(data))) == 0
  {
    hide WithWord;
    var s := WordSum(data);
    WordAt(data, o, ChecksumOf(data));
    if s > 0 {
      var q, r := (s - 1) / 0xFFFF, (s - 1) % 0xFFFF;
      assert s - 1 == q * 0xFFFF + r;
      SameRemainder(0xFFFF - 1, q);
      assert s + (0xFFFF - (r + 1)) - 1 == 0xFFFF - 1 + q * 0xFFFF;
    }
  }

  // ---- where the driver uses it ----

  function Be16(v: nat): (b: seq<byte>)
    ensures |b| == 2
  {
    [v / 256 % 256, v % 256]
  }

  function Be32(v: nat): (b: seq<byte>)
    ensures |b| == 4
  {
    Be16(v / 0x1_0000) + Be16(v % 0x1_0000)
  }

  /** An IPv4 header without options, checksum zero. */
  function IpHeader(len: nat, id: nat, proto: byte, src: seq<byte>, dst: seq<byte>): (h: seq<byte>)
    requires |src| == 4 && |dst| == 4
    ensures |h| == 20 && h[10] == 0 && h[11] == 0
  {
    [0x45, 0] + Be16(20 + len) + Be16(id) + [0, 0, 64, proto, 0, 0] + src + dst
  }

  /** On the bytes: version and header length, no options, the length, the identification, no fragment, 64 hops. */
  lemma IpFields(len: nat, id: nat, proto: byte, src: seq<byte>, dst: seq<byte>)
    requires |src| == 4 && |dst| == 4
    ensures var h := IpHeader(len, id, proto, src, dst);
      && h[0] == 0x45 && h[1] == 0 && h[6] == h[7] == 0 && h[8] == 64 && h[9] == proto
      && 256 * h[2] as int + h[3] as int == (20 + len) % 0x1_0000 && 256 * h[4] as int + h[5] as int == id % 0x1_0000
  {
  }

  /** The header of a packet as it is sent, with a checksum that verifies. */
  method SendIp(len: nat, id: nat, proto: byte, src: seq<byte>, dst: seq<byte>) returns (h: seq<byte>)
    requires |src| == 4 && |dst| == 4
    ensures |h| == 20 && ChecksumOf(h) == 0
    ensures h[0] == 0x45 && h[1] == 0 && h[6] == h[7] == 0 && h[8] == 64 && h[9] == proto
    ensures 256 * h[2] as int + h[3] as int == (20 + len) % 0x1_0000
    ensures 256 * h[4] as int + h[5] as int == id % 0x1_0000 && h[12..] == src + dst
  {
    hide ChecksumOf;
    h := IpHeader(len, id, proto, src, dst);
    IpFields(len, id, proto, src, dst);
    var c := IpChecksum(h);
    StoredVerifies(h, 10);
    h := WithWord(h, 10, c);
  }

  /** An echo request turned into its reply: type 0, the rest kept, a checksum that verifies. */
  method IcmpReply(request: seq<byte>) returns (reply: seq<byte>)
    requires |request| >= 8
    ensures |reply| == (if |request| > 1500 then 1500 else |request|) && ChecksumOf(reply) == 0
    ensures reply[0] == 0 && reply[1] == request[1] && reply[4..] == request[4..|reply|]
  {
    hide ChecksumOf;
    var n := if |request| > 1500 then 1500 else |request|;
    reply := [0, request[1], 0, 0] + request[4..n];
    var c := IpChecksum(reply);
    StoredVerifies(reply, 2);
    reply := WithWord(reply, 2, c);
  }

  function TcpHeader(sport: nat, dport: nat, seqNo: nat, ackNo: nat, flags: byte): (h: seq<byte>)
    ensures |h| == 20 && h[16] == 0 && h[17] == 0
  {
    Be16(sport) + Be16(dport) + Be32(seqNo) + Be32(ackNo) + [0x50, flags] + Be16(4096) + [0, 0, 0, 0]
  }

  /** On the bytes: both ports, the sequence and acknowledgement numbers, five words of header, the window. */
  lemma TcpFields(sport: u16, dport: u16, seqNo: u32, ackNo: u32, flags: byte)
    ensures var h := TcpHeader(sport, dport, seqNo, ackNo, flags);
      && Word(h, 0) == sport && Word(h, 2) == dport && Double(h, 4) == seqNo && Double(h, 8) == ackNo
      && h[12] == 0x50 && h[13] == flags && Word(h, 14) == 4096 && h[18] == h[19] == 0
  {
    hide Be16, Be32, Word, Double;
    HighFirst(sport);
    HighFirst(dport);
    HighFirst(4096);
    HighFirstFour(seqNo);
    HighFirstFour(ackNo);
    var h := TcpHeader(sport, dport, seqNo, ackNo, flags);
    PieceWord(h, 0, Be16(sport));
    PieceWord(h, 2, Be16(dport));
    PieceDouble(h, 4, Be32(seqNo));
    PieceDouble(h, 8, Be32(ackNo));
    PieceWord(h, 14, Be16(4096));
  }

  lemma HighFirst(v: u16)
    ensures Word(Be16(v), 0) == v
  {
  }

  lemma HighFirstFour(v: u32)
    ensures Double(Be32(v), 0) == v
  {
    hide Be16;
    var q, r := v / 0x1_0000, v % 0x1_0000;
    HighFirst(q);
    HighFirst(r);
    var a, b := Be16(q), Be16(r);
    assert Be32(v) == a + b && v == 0x1_0000 * q + r;
  }

  lemma PieceWord(h: seq<byte>, o: nat, piece: seq<byte>)
    requires o + 2 <= |h| && h[o..o + 2] == piece
    ensures Word(h, o) == Word(piece, 0)
  {
  }

  lemma PieceDouble(h: seq<byte>, o: nat, piece: seq<byte>)
    requires o + 4 <= |h| && h[o..o + 4] == piece
    ensures Double(h, o) == Double(piece, 0)
  {
  }

  /** Two and four bytes as a number, high byte first. */
  function Word(b: seq<byte>, o: nat): nat
    requires o + 2 <= |b|
  {
    256 * b[o] as int + b[o + 1] as int
  }

  function Double(b: seq<byte>, o: nat): nat
    requires o + 4 <= |b|
  {
    0x100_0000 * b[o] as int + 0x1_0000 * b[o + 1] as int + 256 * b[o + 2] as int + b[o + 3] as int
  }

  function Pseudo(src: seq<byte>, dst: seq<byte>, len: nat): (p: seq<byte>)
    requires |src| == 4 && |dst| == 4
    ensures |p| == 12
  {
    src + dst + [0, 6] + Be16(len)
  }

  /** The checksum over pseudo-header and segment stored in the segment: it verifies, also when the data has an odd
      length. */
  method TcpSeal(src: seq<byte>, dst: seq<byte>, header: seq<byte>, data: seq<byte>) returns (pkt: seq<byte>)
    requires |src| == 4 && |dst| == 4 && |header| == 20 && header[16] == 0 && header[17] == 0 && |data| + 20 <= 1500
    ensures |pkt| == 20 + |data| && pkt[..16] == header[..16] && pkt[18..20] == header[18..] && pkt[20..] == data
    ensures ChecksumOf(Pseudo(src, dst, |pkt|) + pkt) == 0
  {
    hide ChecksumOf, Pseudo;
    pkt := header + data;
    var buf := Pseudo(src, dst, |pkt|) + pkt;
    var c := IpChecksum(buf);
    assert buf[28] == pkt[16] == header[16] && buf[29] == pkt[17] == header[17];
    StoredVerifies(buf, 28);
    assert pkt[..16] == header[..16] && pkt[18..] == header[18..] + data;
    pkt := WithWord(pkt, 16, c);
    assert pkt == header[..16] + [c / 256, c % 256] + (header[18..] + data);
    assert WithWord(buf, 28, c) == Pseudo(src, dst, |pkt|) + pkt;
  }

  /** A segment as it is sent; data that does not fit one packet is not sent at all. */
  method TcpEmit(src: seq<byte>, dst: seq<byte>, sport: u16, dport: u16, seqNo: u32, ackNo: u32, flags: byte,
                 data: seq<byte>)
    returns (sent: bool, pkt: seq<byte>)
    requires |src| == 4 && |dst| == 4
    ensures sent <==> |data| + 20 <= 1500
    ensures sent ==>
      && |pkt| == 20 + |data| && Word(pkt, 0) == sport && Word(pkt, 2) == dport && Double(pkt, 4) == seqNo
      && Double(pkt, 8) == ackNo && pkt[12] == 0x50 && pkt[13] == flags && Word(pkt, 14) == 4096
      && pkt[18] == pkt[19] == 0 && pkt[20..] == data
      && ChecksumOf(src + dst + [0, 6, |pkt| / 256, |pkt| % 256] + pkt) == 0
  {
    hide ChecksumOf, Pseudo, TcpHeader;
    if |data| + 20 > 1500 {
      return false, [];
    }
    sent := true;
    ghost var h := TcpHeader(sport, dport, seqNo, ackNo, flags);
    pkt := TcpSeal(src, dst, TcpHeader(sport, dport, seqNo, ackNo, flags), data);
    SameFields(h, pkt);
    TcpFields(sport, dport, seqNo, ackNo, flags);
    PseudoBytes(src, dst, |pkt|);
  }

  lemma SameFields(h: seq<byte>, pkt: seq<byte>)
    requires |h| == 20 <= |pkt| && pkt[..16] == h[..16] && pkt[18..20] == h[18..]
    ensures forall i | 0 <= i < 16 || 18 <= i < 20 :: pkt[i] == h[i]
  {
    forall i | 0 <= i < 16
      ensures pkt[i] == h[i]
    {
      assert pkt[i] == pkt[..16][i];
    }
    assert pkt[18] == pkt[18..20][0] && pkt[19] == pkt[18..20][1];
  }

  lemma PseudoBytes(src: seq<byte>, dst: seq<byte>, len: u16)
    requires |src| == 4 && |dst| == 4
    ensures Pseudo(src, dst, len) == src + dst + [0, 6, len / 256, len % 256]
  {
  }
}
