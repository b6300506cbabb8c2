/** The receiving side of the TCP client: an in-order receive ring fed by a network that may drop, repeat and
    reorder. */
module Tcp {
  import opened Bytes

  const RING := 4096
  const WORD := 0x1_0000_0000

  datatype State = Closed | SynSent | Established | ClosedByPeer

  /** A segment of the connection, ports and addresses checked. */
  datatype Segment = Segment(seqNo: u32, ackNo: u32, syn: bool, ack: bool, fin: bool, rst: bool, data: seq<byte>)

  /** What the connection holds: `ring` are the bytes received and not yet read. */
  datatype Conn = Conn(state: State, ring: seq<byte>, rcvNxt: u32)

  function Wrap(x: int): u32 { x % WORD }

  function Min(a: nat, b: nat): nat { if a <= b then a else b }

  function Minus(a: nat, b: nat): nat { if b <= a then a - b else 0 }

  /** One slot of the ring is never used. */
  function Room(c: Conn): nat { Minus(4095, |c.ring|) }

  /** The next byte expected is the first one of the segment. */
  predicate Accepts(c: Conn, s: Segment) {
    (c.state.Established? || c.state.ClosedByPeer?) && !s.rst && |s.data| > 0 && s.seqNo == c.rcvNxt
  }

  /** One segment arrives: as many bytes as there is room for are kept, but all of them count as received. */
  function Input(c: Conn, s: Segment): Conn {
    if c.state.Closed? then c
    else if s.rst then c.(state := Closed)
    else if c.state.SynSent? then
      if s.syn && s.ack then c.(state := Established, rcvNxt := Wrap(s.seqNo + 1)) else c
    else
      var d := if Accepts(c, s) then c.(ring := c.ring + s.data[..Min(|s.data|, Room(c))],
          rcvNxt := Wrap(c.rcvNxt + |s.data|)) else c;
      if s.fin then d.(rcvNxt := Wrap(d.rcvNxt + 1), state := ClosedByPeer) else d
  }

  /** Reading hands out the oldest bytes. */
  function Taken(c: Conn, max: nat): seq<byte> { c.ring[..Min(max, |c.ring|)] }
  function Recv(c: Conn, max: nat): Conn { c.(ring := c.ring[Min(max, |c.ring|)..]) }

  // ---- the ring in its array ----

  class Connection {
    const rbuf: array<byte>
    var rhead: nat
    var rtail: nat
    var rcvNxt: u32
    var state: State

    constructor ()
      ensures Valid() && Now() == Conn(SynSent, [], 0) && fresh(rbuf)
    {
      rbuf := new byte[RING](_ => 0);
      rhead, rtail, rcvNxt, state := 0, 0, 0, SynSent;
    }

    ghost predicate Valid()
      reads this, rbuf
    {
      rbuf.Length == RING && rhead < RING && rtail < RING
    }

    /** The bytes from tail to head, around the end of the array. */
    ghost function Held(): (b: seq<byte>)
      requires Valid()
      reads this, rbuf
      ensures |b| < RING
    {
      if rtail <= rhead then rbuf[rtail..rhead] else rbuf[rtail..] + rbuf[..rhead]
    }

    ghost function Now(): Conn
      requires Valid()
      reads this, rbuf
    {
      Conn(state, Held(), rcvNxt)
    }

    method Push(b: byte) returns (ok: bool)
      requires Valid()
      modifies `rhead, rbuf
      ensures Valid() && ok == (|old(Held())| < RING - 1)
      ensures Held() == if ok then old(Held()) + [b] else old(Held())
    {
      var next := (rhead + 1) % RING;
      if next == rtail {
        return false;
      }
      rbuf[rhead] := b;
      rhead := next;
      ok := true;
    }

    method TcpInput(s: Segment)
      requires Valid()
      modifies this, rbuf
      ensures Valid() && Now() == Input(old(Now()), s)
    {
      hide Wrap;
      if state.Closed? {
        return;
      }
      if s.rst {
        state := Closed;
        return;
      }
      if state.SynSent? {
        if s.syn && s.ack {
          rcvNxt := Wrap(s.seqNo + 1);
          state := Established;
        }
        return;
      }
      if |s.data| > 0 && s.seqNo == rcvNxt {
        Append(s.data);
        rcvNxt := Wrap(rcvNxt + |s.data|);
      }
      if s.fin {
        rcvNxt := Wrap(rcvNxt + 1);
        state := ClosedByPeer;
      }
    }

    /** The bytes go into the ring until it is full. */
    method Append(data: seq<byte>)
      requires Valid()
      modifies `rhead, rbuf
      ensures Valid() && Held() == old(Held()) + data[..Min(|data|, Minus(RING - 1, |old(Held())|))]
    {
      ghost var was := Held();
      var i: nat := 0;
      assert data[..0] == [] && was + [] == was;
      while i < |data|
        invariant i <= |data| && Valid() && Held() == was + data[..i] && |was| + i < RING
      {
        var ok := Push(data[i]);
        if !ok {
          return;
        }
        assert data[..i] + [data[i]] == data[..i + 1];
        i := i + 1;
      }
    }

    /** One round of reading; `code` is the number of bytes, 0 at the end of the stream, -1 when there is nothing
        yet. */
    method TcpRecv(max: nat) returns (code: int, buf: seq<byte>)
      requires Valid()
      modifies `rtail
      ensures Valid() && buf == Taken(old(Now()), max) && Now() == Recv(old(Now()), max)
      ensures code == if |buf| > 0 || max == 0 then |buf| else if state.ClosedByPeer? || state.Closed? then 0 else -1
    {
      hide Connection.Held;
      ghost var was := Held();
      buf := [];
      assert was[0..] == was;
      while rtail != rhead && |buf| < max
        invariant Valid() && |buf| <= max && |buf| <= |was| && buf == was[..|buf|] && Held() == was[|buf|..]
        decreases |was| - |buf|
      {
        var b := Pop();
        buf := buf + [b];
      }
      HeldNone();
      if |buf| > 0 || max == 0 {
        code := |buf|;
      } else if state.ClosedByPeer? || state.Closed? {
        code := 0;
      } else {
        code := -1;
      }
    }

    method Pop() returns (b: byte)
      requires Valid() && rtail != rhead
      modifies `rtail
      ensures Valid() && |old(Held())| > 0 && b == old(Held())[0] && Held() == old(Held())[1..]
    {
      ghost var was, t := Held(), rtail;
      b := rbuf[rtail];
      rtail := (rtail + 1) % RING;
      if t < rhead {
        assert rbuf[t..rhead][1..] == rbuf[t + 1..rhead];
      } else {
        assert rbuf[t..][1..] == rbuf[t + 1..] && rbuf[t..][0] == b;
        assert (rbuf[t..] + rbuf[..rhead])[1..] == rbuf[t + 1..] + rbuf[..rhead];
        if t + 1 == RING {
          assert rbuf[t + 1..] + rbuf[..rhead] == rbuf[0..rhead];
        }
      }
      assert Held() == was[1..];
    }

    lemma HeldNone()
      requires Valid()
      ensures rtail == rhead <==> Held() == []
    {
    }
  }

  // ---- safety over runs ----

  /** A segment the peer can have sent: a piece of its stream at the right sequence number; FIN only behind the last
      byte. `base` is the sequence number of the first byte of the stream. */
  ghost predicate Honest(stream: seq<byte>, base: u32, s: Segment, k: nat) {
    && k + |s.data| <= |stream| && s.seqNo == Wrap(base + k) && s.data == stream[k..k + |s.data|]
    && (s.fin ==> k + |s.data| == |stream|)
  }

  /** Bytes handed out, then bytes in the ring, are the first `n` bytes of the stream; the next number expected is
      that of the byte behind them, and one more for each of the `f` times a FIN has come: the driver counts repeated
      ones too. */
  ghost predicate InStep(stream: seq<byte>, base: u32, c: Conn, given: seq<byte>, n: nat, f: nat) {
    && n <= |stream| && given + c.ring == stream[..n]
    && (c.state.Established? ==> f == 0 && c.rcvNxt == Wrap(base + n))
    && (c.state.ClosedByPeer? ==> n == |stream| && f > 0 && |stream| + f < WORD && c.rcvNxt == Wrap(base + n + f))
  }

  /** The sequence number of a piece of the stream determines where the piece lies. */
  lemma SamePlace(base: u32, k: nat, n: nat)
    requires k < WORD && n < WORD && Wrap(base + k) == Wrap(base + n)
    ensures k == n
  {
    var x, y := base + k, base + n;
    assert x / WORD * WORD + x % WORD == x && y / WORD * WORD + y % WORD == y;
  }

  lemma WrapAdd(base: u32, n: nat, m: nat)
    ensures Wrap(Wrap(base + n) + m) == Wrap(base + n + m)
  {
    var x := base + n;
    var q := x / WORD;
    assert x == q * WORD + Wrap(x);
    WrapMultiple(Wrap(x) + m, q);
  }

  lemma {:induction false} WrapMultiple(a: nat, q: nat)
    ensures Wrap(a + q * WORD) == Wrap(a)
  {
    if q > 0 {
      WrapMultiple(a, q - 1);
      WrapOne(a + (q - 1) * WORD);
      assert a + (q - 1) * WORD + WORD == a + q * WORD;
    }
  }

  lemma WrapOne(a: nat)
    ensures Wrap(a + WORD) == Wrap(a)
  {
  }

  /** How far the stream has come after the segment. */
  ghost function Came(c: Conn, s: Segment, n: nat): nat { if Accepts(c, s) then n + |s.data| else n }

  /** How many times a FIN has come. */
  ghost function Fins(c: Conn, s: Segment, f: nat): nat {
    if s.fin && !s.rst && (c.state.Established? || c.state.ClosedByPeer?) then f + 1 else f
  }

  /** A segment that is not behind what is expected is the piece at `n`. */
  lemma AcceptedAt(stream: seq<byte>, base: u32, c: Conn, given: seq<byte>, n: nat, f: nat, s: Segment,
                   k: nat)
    requires |stream| < WORD - 1 && InStep(stream, base, c, given, n, f) && Honest(stream, base, s, k) && Accepts(c, s)
    ensures c.state.Established? && k == n && n + |s.data| <= |stream| && s.data == stream[n..n + |s.data|]
  {
    hide Wrap;
    if c.state.Established? {
      SamePlace(base, k, n);
    } else {
      SamePlace(base, k, n + f);
    }
  }

  /** One segment, new or repeated, in or out of order: the connection stays in step exactly if an accepted segment
      fits the ring and a FIN comes only when everything in front of it is there. */
  lemma InputInStep(stream: seq<byte>, base: u32, c: Conn, given: seq<byte>, n: nat, s: Segment, k: nat)
    requires |stream| < WORD - 1 && InStep(stream, base, c, given, n, 0) && Honest(stream, base, s, k)
    requires c.state.Established? && !s.rst && |c.ring| < RING
    ensures var fits := Accepts(c, s) ==> |s.data| <= Room(c);
            var inOrder := s.fin ==> Came(c, s, n) == |stream|;
            (exists m, f :: InStep(stream, base, Input(c, s), given, m, f)) <==> fits && inOrder
    ensures (Accepts(c, s) ==> |s.data| <= Room(c)) && (s.fin ==> Came(c, s, n) == |stream|) ==>
            InStep(stream, base, Input(c, s), given, Came(c, s, n), Fins(c, s, 0))
  {
    hide Wrap;
    var d, m := Input(c, s), Came(c, s, n);
    WrapAdd(base, n, |s.data|);
    if Accepts(c, s) {
      AcceptedAt(stream, base, c, given, n, 0, s, k);
      Grown(stream, given, c.ring, n, s.data);
      WrapAdd(base, m, 1);
    } else {
      WrapAdd(base, n, 1);
    }
    var fits := Accepts(c, s) ==> |s.data| <= Room(c);
    var inOrder := s.fin ==> m == |stream|;
    if fits && inOrder {
      assert InStep(stream, base, d, given, m, Fins(c, s, 0)) by {
        if Accepts(c, s) { assert s.data[..|s.data|] == s.data; }
      }
    } else {
      forall j: nat, f: nat | InStep(stream, base, d, given, j, f)
        ensures false
      {
        StepsOut(stream, base, c, given, n, s, j, f);
      }
    }
  }

  lemma Grown(stream: seq<byte>, given: seq<byte>, ring: seq<byte>, n: nat, data: seq<byte>)
    requires n + |data| <= |stream| && given + ring == stream[..n] && data == stream[n..n + |data|]
    ensures given + (ring + data) == stream[..n + |data|]
  {
    assert given + (ring + data) == given + ring + data;
  }

  /** Otherwise the number of bytes held and the number expected next no longer belong together. */
  lemma StepsOut(stream: seq<byte>, base: u32, c: Conn, given: seq<byte>, n: nat, s: Segment, j: nat,
                 f: nat)
    requires |stream| < WORD - 1 && InStep(stream, base, c, given, n, 0) && c.state.Established? && !s.rst
    requires |c.ring| < RING
    requires Came(c, s, n) <= |stream|
    requires (Accepts(c, s) && |s.data| > Room(c)) || (s.fin && Came(c, s, n) != |stream|)
    ensures !InStep(stream, base, Input(c, s), given, j, f)
  {
    hide Wrap;
    var d, m := Input(c, s), Came(c, s, n);
    WrapAdd(base, n, |s.data|);
    assert |given| + |c.ring| == |stream[..n]| == n;
    assert |given| + |d.ring| <= m && (Accepts(c, s) && |s.data| > Room(c) ==> |given| + |d.ring| < m);
    if !s.fin && InStep(stream, base, d, given, j, f) {
      SamePlace(base, j, m);
    }
  }

  /** What happens to a connection: a segment comes in, or the program reads. */
  datatype Event = Arrives(s: Segment, k: nat) | Reads(max: nat)

  function After(c: Conn, e: Event): Conn { if e.Arrives? then Input(c, e.s) else Recv(c, e.max) }
  function Gives(c: Conn, e: Event): seq<byte> { if e.Arrives? then [] else Taken(c, e.max) }

  /** The network delivers pieces of the stream, accepted segments fit the ring, the first FIN is delivered only in
      order; later ones may be repeated, but not so often that the 32-bit numbers come round. */
  ghost predicate Fair(stream: seq<byte>, base: u32, c: Conn, n: nat, f: nat, e: Event) {
    e.Arrives? ==>
      && Honest(stream, base, e.s, e.k)
      && (Accepts(c, e.s) ==> |e.s.data| <= Room(c))
      && (e.s.fin && !e.s.rst && c.state.Established? ==> Came(c, e.s, n) == |stream|)
      && |stream| + Fins(c, e.s, f) < WORD
  }

  ghost function CameBy(c: Conn, n: nat, e: Event): nat { if e.Arrives? then Came(c, e.s, n) else n }
  ghost function FinsBy(c: Conn, f: nat, e: Event): nat { if e.Arrives? then Fins(c, e.s, f) else f }

  ghost predicate FairRun(stream: seq<byte>, base: u32, c: Conn, n: nat, f: nat, es: seq<Event>)
    decreases |es|
  {
    es == [] ||
    (Fair(stream, base, c, n, f, es[0]) &&
     FairRun(stream, base, After(c, es[0]), CameBy(c, n, es[0]), FinsBy(c, f, es[0]), es[1..]))
  }

  function AfterAll(c: Conn, es: seq<Event>): Conn
    decreases |es|
  {
    if es == [] then c else AfterAll(After(c, es[0]), es[1..])
  }

  function GivenBy(c: Conn, es: seq<Event>): seq<byte>
    decreases |es|
  {
    if es == [] then [] else Gives(c, es[0]) + GivenBy(After(c, es[0]), es[1..])
  }

  lemma StepInStep(stream: seq<byte>, base: u32, c: Conn, given: seq<byte>, n: nat, f: nat, e: Event)
    requires |stream| < WORD - 1 && !c.state.SynSent? && |c.ring| < RING
    requires InStep(stream, base, c, given, n, f) && Fair(stream, base, c, n, f, e)
    ensures InStep(stream, base, After(c, e), given + Gives(c, e), CameBy(c, n, e), FinsBy(c, f, e))
    ensures |After(c, e).ring| < RING
    ensures !After(c, e).state.SynSent?
  {
    hide Wrap;
    if e.Reads? {
      var m := Min(e.max, |c.ring|);
      assert c.ring == c.ring[..m] + c.ring[m..];
      assert given + c.ring[..m] + c.ring[m..] == given + c.ring;
    } else {
      assert given + [] == given;
      if Accepts(c, e.s) {
        AcceptedAt(stream, base, c, given, n, f, e.s, e.k);
      }
      if c.state.Established? && !e.s.rst {
        InputInStep(stream, base, c, given, n, e.s, e.k);
      } else if c.state.ClosedByPeer? {
        WrapAdd(base, n + f, 1);
      }
    }
  }

  /** For every run of arrivals and reads: the bytes handed out, followed by those in the ring, are a prefix of what the
      peer sent, in order, without gap and without repetition. */
  lemma {:induction false} RunInStep(stream: seq<byte>, base: u32, c: Conn, given: seq<byte>, n: nat, f: nat,
                                     es: seq<Event>)
    requires |stream| < WORD - 1 && !c.state.SynSent? && |c.ring| < RING
    requires InStep(stream, base, c, given, n, f) && FairRun(stream, base, c, n, f, es)
    ensures exists m, g :: InStep(stream, base, AfterAll(c, es), given + GivenBy(c, es), m, g)
    decreases |es|
  {
    hide Wrap, InStep, Fair, After, Gives;
    if es == [] {
      assert given + [] == given;
      assert InStep(stream, base, AfterAll(c, es), given + GivenBy(c, es), n, f);
    } else {
      var d := After(c, es[0]);
      StepInStep(stream, base, c, given, n, f, es[0]);
      RunInStep(stream, base, d, given + Gives(c, es[0]), CameBy(c, n, es[0]), FinsBy(c, f, es[0]), es[1..]);
      var out := given + Gives(c, es[0]) + GivenBy(d, es[1..]);
      var m, g :| InStep(stream, base, AfterAll(d, es[1..]), out, m, g);
      assert out == given + GivenBy(c, es) && AfterAll(c, es) == AfterAll(d, es[1..]);
    }
  }

  /** A connection starts in step when the peer's SYN is answered: its stream begins behind the SYN. */
  lemma HandshakeInStep(stream: seq<byte>, c: Conn, s: Segment)
    requires c.state.SynSent? && c.ring == [] && s.syn && s.ack && !s.rst
    ensures InStep(stream, Wrap(s.seqNo + 1), Input(c, s), [], 0, 0) && Input(c, s).state.Established?
  {
  }
}
