/** Bulk transfers of the EHCI driver: a buffer cut into transfer descriptors (EHCI 1.0, section 3.5). */
module Ehci {
  import opened Bytes

  const PAGE := 0x1000
  const PAGES := 5
  const POOL := 96
  const TERMINATE := -1
  const WORD := 0x1_0000_0000
  /** The largest packet for which every descriptor has room for a whole one, wherever the buffer lies. */
  const MAX_PACKET := 4 * PAGE + 1

  /** A descriptor; `next` is the index of the one behind it. `addr` and `len` are what it has been made for. */
  datatype Qtd = Qtd(next: int, toggle: nat, dirIn: bool, ioc: bool, addr: nat, len: nat, bufs: seq<nat>)

  function PageOf(addr: nat): nat { addr / PAGE * PAGE }

  /** Bytes from `addr` on that five pages can hold. */
  function Room(addr: nat): (n: nat)
    ensures 0x4001 <= n <= 0x5000
  {
    PAGE - addr % PAGE + 4 * PAGE
  }

  function Min(a: nat, b: nat): nat { if a <= b then a else b }

  /** Bytes of the next descriptor: what is left if it fits, else whole packets. */
  function Chunk(addr: nat, left: nat, maxp: nat): (n: nat)
    requires 0 < maxp <= MAX_PACKET && left > 0
    ensures 0 < n <= left && n <= Room(addr) && (n < left ==> n % maxp == 0)
  {
    var c := Min(left, Room(addr));
    if c < left then WholePackets(c, maxp); c - c % maxp else c
  }

  lemma WholePackets(c: nat, maxp: nat)
    requires 0 < maxp <= c
    ensures 0 < c - c % maxp <= c && (c - c % maxp) % maxp == 0
  {
    var q, r := c / maxp, c % maxp;
    assert c == q * maxp + r;
    if q == 0 { assert false; }
    MulLe(1, q, maxp);
    DivModUnique(c - r, maxp, q, 0);
  }

  function Packets(n: nat, maxp: nat): nat
    requires maxp > 0
  {
    (n + maxp - 1) / maxp
  }

  function Flip(tog: nat, packets: nat): nat { if packets % 2 == 1 then 1 - tog % 2 else tog }

  // ---- buffer pointers ----

  /** Page pointers for the bytes [addr, addr + len): the address itself, then the pages behind it as far as needed. */
  function Pointers(addr: nat, len: nat): (bufs: seq<nat>)
    ensures |bufs| == PAGES
  {
    seq(PAGES, i requires 0 <= i < PAGES =>
      if len == 0 then 0 else if i == 0 then addr else if addr % PAGE + len > i * PAGE then PageOf(addr) + i * PAGE
          else 0)
  }

  method FillBufs(addr: nat, len: nat) returns (bufs: seq<nat>)
    requires len > 0 ==> addr + len <= WORD
    ensures bufs == Pointers(addr, len)
  {
    bufs := [0, 0, 0, 0, 0];
    if len == 0 {
      return;
    }
    var first := addr % PAGE;
    var page, left := PageOf(addr), len;
    bufs := bufs[0 := addr];
    left := left - Min(PAGE - first, left);
    var idx := 1;
    while left > 0 && idx < PAGES
      invariant 1 <= idx <= PAGES && |bufs| == PAGES && bufs[0] == addr && page == PageOf(addr) + (idx - 1) * PAGE
      invariant left == if first + len > idx * PAGE then first + len - idx * PAGE else 0
      invariant forall i | 0 < i < PAGES ::
        bufs[i] == if i < idx && first + len > i * PAGE then PageOf(addr) + i * PAGE else 0
    {
      page := page + PAGE;
      bufs := bufs[idx := page];
      idx := idx + 1;
      left := left - Min(PAGE, left);
    }
  }

  /** Every byte of a descriptor lies in the page that the pointer for it names. */
  lemma BytesListed(addr: nat, len: nat, k: nat)
    requires len <= Room(addr) && k < len
    ensures var bufs, i := Pointers(addr, len), (addr % PAGE + k) / PAGE;
            i < PAGES && PageOf(bufs[i]) == PageOf(addr + k) && (addr + k) % PAGE == (addr % PAGE + k) % PAGE
  {
    var i, first := (addr % PAGE + k) / PAGE, addr % PAGE;
    assert addr == PageOf(addr) + first;
    assert first + k == i * PAGE + (first + k) % PAGE;
    PageShift(addr / PAGE, i, (first + k) % PAGE);
    PageShift(addr / PAGE, i, 0);
  }

  lemma PageShift(p: nat, i: nat, r: nat)
    requires r < PAGE
    ensures PageOf(p * PAGE + i * PAGE + r) == p * PAGE + i * PAGE && (p * PAGE + i * PAGE + r) % PAGE == r
  {
    DivModUnique(p * PAGE + i * PAGE + r, PAGE, p + i, r);
  }

  // ---- packets and toggles ----

  /** The number of packets of a piece of whole packets and the rest. */
  lemma PacketsAdd(n: nat, rest: nat, maxp: nat)
    requires maxp > 0 && n % maxp == 0
    ensures Packets(n + rest, maxp) == Packets(n, maxp) + Packets(rest, maxp)
  {
    var q := n / maxp;
    assert n == q * maxp;
    var x := rest + maxp - 1;
    assert x == x / maxp * maxp + x % maxp;
    SumOfMultiples(q, x / maxp, maxp);
    DivModUnique(n + x, maxp, q + x / maxp, x % maxp);
    DivModUnique(n + maxp - 1, maxp, q, maxp - 1);
  }

  lemma SumOfMultiples(a: nat, b: nat, m: nat)
    ensures (a + b) * m == a * m + b * m
  {
  }

  /** `p` packets of at most `maxp` bytes are needed for `n` bytes, and no more. */
  predicate Fills(p: nat, n: nat, maxp: nat) { n <= p * maxp < n + maxp }

  /** The toggle `after` is `tog` flipped once for each packet of `n` bytes. */
  ghost predicate Flipped(tog: nat, after: nat, n: nat, maxp: nat) {
    exists p: nat :: Fills(p, n, maxp) && after == (tog + p) % 2
  }

  lemma FlipsOfLength(tog: nat, n: nat, maxp: nat)
    requires tog < 2 && maxp > 0
    ensures Flipped(tog, Flip(tog, Packets(n, maxp)), n, maxp)
  {
    var x, p := n + maxp - 1, Packets(n, maxp);
    assert x == p * maxp + x % maxp;
    assert Fills(p, n, maxp);
  }

  /** The packets that fill `n` bytes are the fewest that hold them. */
  lemma FillsIsLeast(p: nat, q: nat, n: nat, maxp: nat)
    requires Fills(p, n, maxp)
    ensures q < p ==> q * maxp < n
  {
    MulLe(q + 1, p, maxp);
  }

  lemma FlipTwice(tog: nat, a: nat, b: nat)
    requires tog < 2
    ensures Flip(Flip(tog, a), b) == Flip(tog, a + b) == (tog + a + b) % 2
  {
  }

  // ---- the descriptors ----

  /** The descriptors from number `i` on for the buffer [addr, addr + len), the first with toggle `tog`. */
  function Chain(i: nat, addr: nat, len: nat, maxp: nat, tog: nat, dirIn: bool): (qs: seq<Qtd>)
    requires 0 < maxp <= MAX_PACKET
    decreases len
  {
    if len == 0 then []
    else
      var n := Chunk(addr, len, maxp);
      [Qtd(if n < len then i + 1 else TERMINATE, tog, dirIn, n == len, addr, n, Pointers(addr, n))]
      + Chain(i + 1, addr + n, len - n, maxp, Flip(tog, Packets(n, maxp)), dirIn)
  }

  /** Build the chain in the pool: all of it if it fits, else as much as fits; `after` is the toggle the next transfer
      starts with. */
  method BulkTransfer(qtds: array<Qtd>, data: nat, len: nat, maxp: nat, dirIn: bool, tog: nat)
    returns (n: nat, done: nat, after: nat)
    requires qtds.Length == POOL && 0 < maxp <= MAX_PACKET && tog < 2 && data + len <= WORD
    modifies qtds
    ensures var chain := Chain(0, data, len, maxp, tog, dirIn);
      && n == Min(|chain|, 96) && qtds[..n] == chain[..n] && (done == len <==> |chain| <= 96)
      && (done == len ==> Flipped(tog, after, len, maxp))
  {
    hide Chunk, Packets, Flip, Pointers, Chain, Flipped;
    n, done, after := 0, 0, tog;
    ghost var chain := Chain(0, data, len, maxp, tog, dirIn);
    FlipNone(tog, maxp);
    assert qtds[..0] + chain == chain;
    while done < len && n < POOL
      invariant done <= len && n <= POOL && after < 2
      invariant chain == qtds[..n] + Chain(n, data + done, len - done, maxp, after, dirIn)
      invariant done < len ==> done % maxp == 0
      invariant after == Flip(tog, Packets(done, maxp))
    {
      var chunk := ChunkSize(data + done, len - done, maxp);
      var bufs := FillBufs(data + done, chunk);
      var rest := len - (done + chunk);
      ghost var was := qtds[..n];
      ghost var q := Qtd(if rest > 0 then n + 1 else TERMINATE, after, dirIn, rest == 0, data + done, chunk, bufs);
      OneMore(chain, was, n, data + done, len - done, maxp, after, dirIn);
      FlipOn(tog, done, chunk, maxp);
      WholeSoFar(done, chunk, maxp);
      qtds[n] := Qtd(if rest > 0 then n + 1 else TERMINATE, after, dirIn, rest == 0, data + done, chunk, bufs);
      assert qtds[..n + 1] == was + [q];
      done := done + chunk;
      after := Flip(after, Packets(chunk, maxp));
      n := n + 1;
    }
    ChainEmpty(n, data + done, len - done, maxp, after, dirIn);
    FlipsOfLength(tog, done, maxp);
  }

  lemma FlipOn(tog: nat, n: nat, rest: nat, maxp: nat)
    requires tog < 2 && maxp > 0 && n % maxp == 0
    ensures Flip(Flip(tog, Packets(n, maxp)), Packets(rest, maxp)) == Flip(tog, Packets(n + rest, maxp)) < 2
  {
    hide Flip, Packets;
    PacketsAdd(n, rest, maxp);
    FlipTwice(tog, Packets(n, maxp), Packets(rest, maxp));
  }

  lemma OneMore(chain: seq<Qtd>, was: seq<Qtd>, i: nat, addr: nat, len: nat, maxp: nat, tog: nat, dirIn: bool)
    requires 0 < maxp <= MAX_PACKET && len > 0 && chain == was + Chain(i, addr, len, maxp, tog, dirIn)
    ensures var n := Chunk(addr, len, maxp);
      chain == was + [Qtd(if n < len then i + 1 else TERMINATE, tog, dirIn, n == len, addr, n, Pointers(addr, n))]
               + Chain(i + 1, addr + n, len - n, maxp, Flip(tog, Packets(n, maxp)), dirIn)
  {
    hide Chunk, Chain, Packets, Flip, Pointers;
    ChainStep(i, addr, len, maxp, tog, dirIn);
  }

  lemma ChainStep(i: nat, addr: nat, len: nat, maxp: nat, tog: nat, dirIn: bool)
    requires 0 < maxp <= MAX_PACKET && len > 0
    ensures var n := Chunk(addr, len, maxp);
      Chain(i, addr, len, maxp, tog, dirIn)
      == [Qtd(if n < len then i + 1 else TERMINATE, tog, dirIn, n == len, addr, n, Pointers(addr, n))]
         + Chain(i + 1, addr + n, len - n, maxp, Flip(tog, Packets(n, maxp)), dirIn)
  {
  }

  lemma ChainEmpty(i: nat, addr: nat, len: nat, maxp: nat, tog: nat, dirIn: bool)
    requires 0 < maxp <= MAX_PACKET
    ensures Chain(i, addr, len, maxp, tog, dirIn) == [] <==> len == 0
  {
    if len > 0 { ChainStep(i, addr, len, maxp, tog, dirIn); }
  }

  lemma FlipNone(tog: nat, maxp: nat)
    requires maxp > 0
    ensures Flip(tog, Packets(0, maxp)) == tog
  {
    DivModUnique(maxp - 1, maxp, 0, maxp - 1);
  }

  lemma WholeSoFar(a: nat, b: nat, maxp: nat)
    requires maxp > 0 && a % maxp == 0
    ensures b % maxp == 0 ==> (a + b) % maxp == 0
  {
    if b % maxp == 0 {
      SumOfMultiples(a / maxp, b / maxp, maxp);
      assert a == a / maxp * maxp && b == b / maxp * maxp;
      DivModUnique(a + b, maxp, a / maxp + b / maxp, 0);
    }
  }

  // ---- what a chain is ----

  /** Descriptor `k` lies behind those before it. */
  function Offset(qs: seq<Qtd>, k: nat): nat
    requires k <= |qs|
  {
    if k == 0 then 0 else Offset(qs, k - 1) + qs[k - 1].len
  }

  /** The descriptors of a transfer of any length at any alignment: they follow each other without gap or overlap and
      make up the buffer; each is linked to the next, the last one ends the chain and interrupts; the bytes of each
      lie in the pages it lists; all but the last carry whole packets; each starts with the toggle flipped once for
      every packet before it. */
  ghost predicate Tiles(qs: seq<Qtd>, i: nat, addr: nat, len: nat, maxp: nat, tog: nat)
    requires maxp > 0
  {
    && Offset(qs, |qs|) == len
    && forall k | 0 <= k < |qs| ::
         && qs[k].addr == addr + Offset(qs, k) && 0 < qs[k].len <= Room(qs[k].addr)
         && qs[k].bufs == Pointers(qs[k].addr, qs[k].len)
         && (k < |qs| - 1 ==> qs[k].next == i + k + 1 && !qs[k].ioc && qs[k].len % maxp == 0)
         && (k == |qs| - 1 ==> qs[k].next == -1 && qs[k].ioc)
         && qs[k].toggle == Flip(tog, Packets(Offset(qs, k), maxp))
  }

  lemma {:induction false} OffsetShift(q: Qtd, qs: seq<Qtd>, k: nat)
    requires k <= |qs|
    ensures Offset([q] + qs, k + 1) == q.len + Offset(qs, k)
  {
    if k > 0 {
      OffsetShift(q, qs, k - 1);
      assert ([q] + qs)[k] == qs[k - 1];
    }
  }

  lemma {:induction false} ChainTiles(i: nat, addr: nat, len: nat, maxp: nat, tog: nat, dirIn: bool)
    requires 0 < maxp <= MAX_PACKET && tog < 2
    ensures Tiles(Chain(i, addr, len, maxp, tog, dirIn), i, addr, len, maxp, tog)
    decreases len
  {
    hide Chunk, Packets, Flip, Pointers, Room, Tiles;
    if len > 0 {
      var n := Chunk(addr, len, maxp);
      var t := Flip(tog, Packets(n, maxp));
      FlipTwice(tog, Packets(n, maxp), 0);
      ChainTiles(i + 1, addr + n, len - n, maxp, t, dirIn);
      ChainEmpty(i + 1, addr + n, len - n, maxp, t, dirIn);
      OneMoreTile(Chain(i, addr, len, maxp, tog, dirIn)[0], Chain(i + 1, addr + n, len - n, maxp, t, dirIn), i, addr,
          len, maxp, tog, n);
    } else {
      NoTiles(i, addr, maxp, tog);
    }
  }

  /** Each descriptor starts with the toggle flipped once for every packet of the bytes before it. */
  lemma ToggleCounts(i: nat, addr: nat, len: nat, maxp: nat, tog: nat, dirIn: bool, k: nat)
    requires 0 < maxp <= MAX_PACKET && tog < 2 && k < |Chain(i, addr, len, maxp, tog, dirIn)|
    ensures var qs := Chain(i, addr, len, maxp, tog, dirIn); Flipped(tog, qs[k].toggle, Offset(qs, k), maxp)
  {
    hide Chunk, Packets, Flip, Pointers, Room, Chain, Offset, Flipped;
    ChainTiles(i, addr, len, maxp, tog, dirIn);
    FlipsOfLength(tog, Offset(Chain(i, addr, len, maxp, tog, dirIn), k), maxp);
  }

  lemma NoTiles(i: nat, addr: nat, maxp: nat, tog: nat)
    requires maxp > 0
    ensures Tiles([], i, addr, 0, maxp, tog)
  {
  }

  lemma OneMoreTile(q: Qtd, qs: seq<Qtd>, i: nat, addr: nat, len: nat, maxp: nat, tog: nat, n: nat)
    requires 0 < maxp <= MAX_PACKET && tog < 2 && 0 < n <= len && n <= Room(addr) && (n < len ==> n % maxp == 0)
    requires q == Qtd(if n < len then i + 1 else TERMINATE, tog, q.dirIn, n == len, addr, n, Pointers(addr, n))
    requires Tiles(qs, i + 1, addr + n, len - n, maxp, Flip(tog, Packets(n, maxp))) && (qs == [] <==> n == len)
    ensures Tiles([q] + qs, i, addr, len, maxp, tog)
  {
    hide Packets, Flip, Pointers, Room, Offset;
    var all := [q] + qs;
    OffsetNone(all);
    OffsetShift(q, qs, |qs|);
    forall k | 0 <= k < |all|
      ensures all[k].addr == addr + Offset(all, k) && 0 < all[k].len <= Room(all[k].addr)
           && all[k].bufs == Pointers(all[k].addr, all[k].len)
           && all[k].toggle == Flip(tog, Packets(Offset(all, k), maxp))
           && (k < |all| - 1 ==> all[k].next == i + k + 1 && !all[k].ioc && all[k].len % maxp == 0)
           && (k == |all| - 1 ==> all[k].next == TERMINATE && all[k].ioc)
    {
      if k == 0 {
        FlipNone(tog, maxp);
      } else {
        assert all[k] == qs[k - 1];
        OffsetShift(q, qs, k - 1);
        PacketsAdd(n, Offset(qs, k - 1), maxp);
        FlipTwice(tog, Packets(n, maxp), Packets(Offset(qs, k - 1), maxp));
      }
    }
  }

  lemma OffsetNone(qs: seq<Qtd>)
    ensures Offset(qs, 0) == 0
  {
  }

  method ChunkSize(phys: nat, left: nat, maxp: nat) returns (chunk: nat)
    requires 0 < maxp <= MAX_PACKET && left > 0
    ensures chunk == Chunk(phys, left, maxp)
  {
    chunk := left;
    var span := PAGE - phys % PAGE + 4 * PAGE;
    if chunk > span {
      chunk := span;
    }
    if chunk < left {
      WholePackets(chunk, maxp);
      chunk := chunk - chunk % maxp;
      if chunk == 0 {
        chunk := maxp;
      }
    }
  }
}
