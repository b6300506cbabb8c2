/** Names in DNS messages (RFC 1035, sections 3.1 and 4.1.4): length-prefixed labels, ended by an empty one. */
module Dns {
  import B = Bytes

  type byte = B.byte

  const DOT := 0x2E
  const MAX_LABEL := 63
  const MAX_HOPS := 64

  /** A label: 1 to 63 bytes, none of them a dot or zero. */
  predicate IsLabel(l: seq<byte>) {
    1 <= |l| <= 63 && forall i | 0 <= i < |l| :: l[i] != 0x2E && l[i] != 0
  }

  predicate AreLabels(ls: seq<seq<byte>>) {
    forall i | 0 <= i < |ls| :: IsLabel(ls[i])
  }

  /** The host name as text: labels with dots between them. */
  function Text(ls: seq<seq<byte>>): seq<byte> {
    if ls == [] then [] else if |ls| == 1 then ls[0] else ls[0] + [0x2E] + Text(ls[1..])
  }

  /** The labels as they are sent. */
  function Wire(ls: seq<seq<byte>>): (w: seq<byte>)
    requires AreLabels(ls)
    ensures |w| >= 1
  {
    if ls == [] then [0] else [|ls[0]|] + ls[0] + Wire(ls[1..])
  }

  /** Number of bytes up to the next dot or the end. */
  function LabelLen(s: seq<byte>): (n: nat)
    ensures n <= |s| && (n < |s| ==> s[n] == DOT) && forall i | 0 <= i < n :: s[i] != DOT
  {
    if s == [] || s[0] == DOT then 0 else 1 + LabelLen(s[1..])
  }

  datatype Encoding = Bytes(w: seq<byte>) | TooLong

  /** What follows a label of length `n`, without the dot. */
  function Behind(s: seq<byte>, n: nat): seq<byte> {
    if n < |s| then s[n + 1..] else []
  }

  function Prefixed(w: seq<byte>, e: Encoding): Encoding {
    if e.Bytes? then Bytes(w + e.w) else TooLong
  }

  /** A label with its length in front. */
  function Piece(s: seq<byte>, n: nat): seq<byte>
    requires n <= |s| && n < 256
  {
    [n] + s[..n]
  }

  /** What encoding makes of any text, written behind `o` bytes of a buffer of `max`: nothing when a label is too
      long or the buffer too small. */
  function Encoded(s: seq<byte>, o: nat, max: nat): (r: Encoding)
    ensures r.Bytes? ==> o + |r.w| <= max
    decreases |s|
  {
    if s == [] then if o >= max then TooLong else Bytes([0])
    else
      var n := LabelLen(s);
      if n > MAX_LABEL || o + n + 1 >= max then TooLong
      else Prefixed(Piece(s, n), Encoded(Behind(s, n), o + n + 1, max))
  }

  method LabelLength(name: seq<byte>, s: nat) returns (n: nat)
    requires s <= |name|
    ensures n == LabelLen(name[s..])
  {
    n := 0;
    while s + n < |name| && name[s + n] != DOT
      invariant s + n <= |name| && LabelLen(name[s..]) == n + LabelLen(name[s + n..])
    {
      assert name[s + n..][1..] == name[s + n + 1..];
      n := n + 1;
    }
  }

  method WriteLabel(out: array<byte>, o: nat, label_: seq<byte>)
    requires |label_| < 256 && o + |label_| + 1 <= out.Length
    modifies out
    ensures out[..o] == old(out[..o]) && out[o..o + |label_| + 1] == Piece(label_, |label_|)
  {
    out[o] := |label_|;
    var i := 0;
    while i < |label_|
      invariant 0 <= i <= |label_| && out[..o] == old(out[..o]) && out[o] == |label_|
      invariant forall k | 0 <= k < i :: out[o + 1 + k] == label_[k]
    {
      out[o + 1 + i] := label_[i];
      i := i + 1;
    }
  }

  /** Write the encoded name to `out`; the number of bytes written, or -1. */
  method DnsEncodeName(name: seq<byte>, out: array<byte>) returns (n: int)
    modifies out
    ensures var e := Encoded(name, 0, out.Length);
            if e.Bytes? then n == |e.w| <= out.Length && out[..n] == e.w else n == -1
  {
    hide LabelLen, Piece, Behind;
    var o: nat, s: nat := 0, 0;
    ghost var e, written := Encoded(name, 0, out.Length), [];
    assert name[0..] == name;
    NoPrefix(e);
    while s < |name|
      invariant s <= |name| && o == |written| <= out.Length && out[..o] == written
      invariant e == Prefixed(written, Encoded(name[s..], o, out.Length))
      decreases |name| - s
    {
      var len := LabelLength(name, s);
      if len > MAX_LABEL || o + len + 1 >= out.Length {
        return -1;
      }
      NextLabel(name, s, len, written, o, out.Length);
      WriteLabel(out, o, name[s..s + len]);
      written := written + Piece(name[s..], len);
      o := o + len + 1;
      s := s + len;
      if s < |name| && name[s] == DOT {
        s := s + 1;
      }
    }
    assert name[s..] == [];
    if o >= out.Length {
      return -1;
    }
    out[o] := 0;
    n := o + 1;
  }

  lemma NoPrefix(e: Encoding)
    ensures Prefixed([], e) == e
  {
  }

  /** One label further on. */
  lemma NextLabel(name: seq<byte>, s: nat, n: nat, written: seq<byte>, o: nat, max: nat)
    requires s < |name| && n == LabelLen(name[s..]) && n <= MAX_LABEL && o + n + 1 < max
    ensures var t := if s + n < |name| then s + n + 1 else s + n;
      && t <= |name| && (s + n < |name| ==> name[s + n] == DOT)
      && Piece(name[s..], n) == Piece(name[s..s + n], n) && |Piece(name[s..], n)| == n + 1
      && Prefixed(written, Encoded(name[s..], o, max)) == Prefixed(written + Piece(name[s..], n),
          Encoded(name[t..], o + n + 1, max))
  {
    hide LabelLen;
    var rest := name[s..];
    var t := if s + n < |name| then s + n + 1 else s + n;
    assert rest[..n] == name[s..s + n] && name[s..s + n][..n] == name[s..s + n];
    assert Behind(rest, n) == name[t..];
    var e := Encoded(name[t..], o + n + 1, max);
    if e.Bytes? {
      assert written + (Piece(rest, n) + e.w) == written + Piece(rest, n) + e.w;
    }
  }

  // ---- encoding host names ----

  lemma {:induction false} LabelLenIs(l: seq<byte>, rest: seq<byte>)
    requires (forall i | 0 <= i < |l| :: l[i] != DOT) && (rest == [] || rest[0] == DOT)
    ensures LabelLen(l + rest) == |l|
  {
    if l != [] {
      LabelLenIs(l[1..], rest);
      assert (l + rest)[1..] == l[1..] + rest;
    } else {
      assert l + rest == rest;
    }
  }

  lemma WireFirst(ls: seq<seq<byte>>)
    requires AreLabels(ls) && ls != []
    ensures Wire(ls) == [|ls[0]|] + ls[0] + Wire(ls[1..])
  {
  }

  lemma EncodeFirst(s: seq<byte>, n: nat, o: nat, max: nat)
    requires s != [] && n == LabelLen(s) <= MAX_LABEL
    ensures Encoded(s, o, max) == if o + n + 1 >= max then TooLong
        else Prefixed(Piece(s, n), Encoded(Behind(s, n), o + n + 1, max))
  {
    hide LabelLen, Piece, Behind;
  }

  /** A host name is encoded as its labels exactly if they fit. */
  lemma {:induction false} EncodeIsWire(ls: seq<seq<byte>>, o: nat, max: nat)
    requires AreLabels(ls)
    ensures Encoded(Text(ls), o, max) == if o + |Wire(ls)| <= max then Bytes(Wire(ls)) else TooLong
    decreases |ls|
  {
    hide LabelLen, Text, Behind, Encoded, Wire, Piece;
    if ls == [] {
      EncodeNone(o, max);
    } else {
      var l, s := ls[0], Text(ls);
      TextParts(ls);
      EncodeFirst(s, |l|, o, max);
      WireFirst(ls);
      EncodeIsWire(ls[1..], o + |l| + 1, max);
      PieceIs(s, |l|);
    }
  }

  lemma EncodeNone(o: nat, max: nat)
    ensures Text([]) == [] && Wire([]) == [0] && Encoded([], o, max) == if o + 1 <= max then Bytes([0]) else TooLong
  {
  }

  lemma PieceIs(s: seq<byte>, n: nat)
    requires n <= |s| && n < 256
    ensures Piece(s, n) == [n] + s[..n]
  {
  }

  /** The first label of a host name, and what is behind it. */
  lemma TextParts(ls: seq<seq<byte>>)
    requires AreLabels(ls) && ls != []
    ensures var l, s := ls[0], Text(ls);
      && IsLabel(l) && |l| <= |s| && s[..|l|] == l && LabelLen(s) == |l| && Behind(s, |l|) == Text(ls[1..])
  {
    hide LabelLen;
    var l, s := ls[0], Text(ls);
    var rest := if |ls| == 1 then [] else [DOT] + Text(ls[1..]);
    assert IsLabel(l);
    assert s == l + rest;
    LabelLenIs(l, rest);
    if |ls| == 1 {
      assert ls[1..] == [];
    } else {
      assert s[|l| + 1..] == Text(ls[1..]);
    }
  }

  // ---- decoding and skipping ----

  /** The labels of an uncompressed name at offset `off`; nothing when it is cut off. */
  function Decode(p: seq<byte>, off: nat): (r: (bool, seq<seq<byte>>))
    decreases |p| - off
  {
    if off >= |p| then (false, [])
    else if p[off] == 0 then (true, [])
    else if p[off] > MAX_LABEL || off + 1 + p[off] > |p| then (false, [])
    else
      var rest := Decode(p, off + 1 + p[off]);
      if rest.0 then (true, [p[off + 1..off + 1 + p[off]]] + rest.1) else (false, [])
  }

  /** Decoding what was encoded gives the labels back, whatever follows. */
  lemma {:induction false} DecodeWire(ls: seq<seq<byte>>, before: seq<byte>, after: seq<byte>)
    requires AreLabels(ls)
    ensures Decode(before + Wire(ls) + after, |before|) == (true, ls)
    decreases |ls|
  {
    var p, off := before + Wire(ls) + after, |before|;
    if ls != [] {
      var l := ls[0];
      assert IsLabel(l);
      var head := before + ([|l| as byte] + l);
      assert p == head + Wire(ls[1..]) + after;
      DecodeWire(ls[1..], head, after);
      assert p[off] == |l| && p[off + 1..off + 1 + |l|] == l;
      assert [l] + ls[1..] == ls;
    }
  }

  /** The offset behind the name at `off`, or -1; a compression pointer ends a name. */
  function Skipped(p: seq<byte>, off: nat, hops: nat): (r: int)
    decreases |p| - off
  {
    if off >= |p| then -1
    else if p[off] == 0 then off + 1
    else if p[off] >= 0xC0 then if off + 2 > |p| then -1 else off + 2
    else if p[off] > MAX_LABEL || hops + 1 > MAX_HOPS then -1
    else Skipped(p, off + 1 + p[off], hops + 1)
  }

  method DnsSkipName(p: seq<byte>, start: nat) returns (r: int)
    ensures r == Skipped(p, start, 0)
  {
    var off, hops := start, 0;
    while off < |p|
      invariant 0 <= hops && 0 <= off && Skipped(p, start, 0) == Skipped(p, off, hops)
      decreases |p| - off
    {
      var b := p[off];
      if b == 0 {
        return off + 1;
      }
      if b / 0x40 == 3 {
        if off + 2 > |p| {
          return -1;
        }
        return off + 2;
      }
      if b > MAX_LABEL {
        return -1;
      }
      off := off + 1 + b as int;
      hops := hops + 1;
      if hops > MAX_HOPS {
        return -1;
      }
    }
    r := -1;
  }

  /** Skipping an encoded name gives exactly its length, provided that it has at most 64 labels; with more it fails. */
  lemma {:induction false} SkipWire(ls: seq<seq<byte>>, before: seq<byte>, after: seq<byte>, hops: nat)
    requires AreLabels(ls) && hops <= MAX_HOPS
    ensures Skipped(before + Wire(ls) + after, |before|, hops)
         == if hops + |ls| <= MAX_HOPS then |before| + |Wire(ls)| else -1
    decreases |ls|
  {
    var p, off := before + Wire(ls) + after, |before|;
    if ls != [] {
      var l := ls[0];
      assert IsLabel(l);
      var head := before + ([|l| as byte] + l);
      assert p == head + Wire(ls[1..]) + after;
      assert p[off] == |l|;
      if hops + 1 <= MAX_HOPS {
        SkipWire(ls[1..], head, after, hops + 1);
      }
    }
  }

  /** The labels without the empty one that ends them. */
  function Pieces(ls: seq<seq<byte>>): seq<byte>
    requires AreLabels(ls)
  {
    if ls == [] then [] else [|ls[0]|] + ls[0] + Pieces(ls[1..])
  }

  /** Skipping labels with anything behind them: a zero byte ends the name, so does a pointer of two bytes, and
      everything else makes it fail, as do more than 64 labels. */
  lemma {:induction false} SkipEnds(ls: seq<seq<byte>>, before: seq<byte>, tail: seq<byte>, hops: nat)
    requires AreLabels(ls) && hops <= MAX_HOPS && (tail == [] || tail[0] == 0 || tail[0] >= 64)
    ensures var off := |before| + |Pieces(ls)|;
      Skipped(before + Pieces(ls) + tail, |before|, hops)
      == if hops + |ls| > 64 then -1
         else if |tail| >= 1 && tail[0] == 0 then off + 1
         else if |tail| >= 2 && tail[0] >= 192 then off + 2
         else -1
    decreases |ls|
  {
    var p, off := before + Pieces(ls) + tail, |before|;
    if ls != [] {
      var l := ls[0];
      assert IsLabel(l);
      var head := before + ([|l| as byte] + l);
      assert p == head + Pieces(ls[1..]) + tail;
      assert p[off] == |l|;
      if hops + 1 <= MAX_HOPS {
        SkipEnds(ls[1..], head, tail, hops + 1);
      }
    } else {
      assert p == before + tail;
    }
  }

  /** From host name to wire and back: encoding succeeds exactly if the buffer is large enough, decoding gives the
      labels back, and skipping lands right behind them exactly for names of at most 64 labels. */
  lemma NameRoundTrip(ls: seq<seq<byte>>, max: nat, after: seq<byte>)
    requires AreLabels(ls)
    ensures var e := Encoded(Text(ls), 0, max);
      && (e.Bytes? <==> |Wire(ls)| <= max)
      && (e.Bytes? ==>
            Decode(e.w + after, 0) == (true, ls) && (Skipped(e.w + after, 0, 0) == |e.w| <==> |ls| <= MAX_HOPS))
  {
    EncodeIsWire(ls, 0, max);
    DecodeWire(ls, [], after);
    SkipWire(ls, [], after, 0);
    assert [] + Wire(ls) + after == Wire(ls) + after;
  }
}
