/** What each step of the parser adds to the node table, as lemmas about snapshots of the parser's state. */
module ZbcParseSteps {
  import opened ZbcSyntax
  import opened ZbcGrammar
  import opened ZbcNodes

  datatype Snap = Snap(pos: nat, table: seq<Node>, bad: bool)

  /** The tree fits the rest of the table. */
  predicate Fits(r: Parse, count: nat) {
    r.Ok? && count + Size(r.t) <= MAX_NODES
  }

  /** From `s0` to `s`, parsing `r`: an error has been reported exactly if there was one before, or the grammar has
      one, or the table is too small; otherwise the rows of the tree have been added, its root is row `n`, its tokens
      are consumed. */
  ghost predicate Outcome(r: Parse, n: nat, s0: Snap, s: Snap) {
    && (!s.bad <==> !s0.bad && Fits(r, |s0.table|))
    && (!s.bad ==> s.pos == r.pos && n == Root(r.t, |s0.table|) && s.table == s0.table + Layout(r.t, |s0.table|, -1))
  }

  lemma AfterOk(r: Parse, n: nat, s0: Snap, s: Snap)
    requires Outcome(r, n, s0, s)
    ensures !s.bad ==> r.Ok? && s.pos == r.pos && n < |s.table| && (s.table[n].kind == NVar <==> r.t.Var?)
    ensures !s.bad ==> |s.table| <= MAX_NODES
  {
    hide Size, Layout;
    if !s.bad {
      RootKind(r.t, |s0.table|);
    }
  }

  lemma RootKind(t: Tree, lo: nat)
    ensures Layout(t, lo, -1)[Root(t, lo) - lo].kind == NVar <==> t.Var?
    ensures t.Var? ==> Layout(t, lo, -1) == [Blank(NVar).(name := t.name)] && Root(t, lo) == lo && Size(t) == 1
  {
    hide OptSize;
  }

  lemma BadStep(n: nat, s0: Snap, s: Snap)
    requires s.bad
    ensures Outcome(Bad, n, s0, s)
  {
  }

  /** The position before a step plays no part. */
  lemma Earlier(r: Parse, n: nat, s0: Snap, s1: Snap, s: Snap)
    requires s1.table == s0.table && s1.bad == s0.bad
    ensures Outcome(r, n, s0, s) <==> Outcome(r, n, s1, s)
  {
  }

  lemma LeafStep(t: Tree, n: nat, s0: Snap, s: Snap)
    requires t.Num? || t.Str? || t.Var?
    requires |s0.table| <= MAX_NODES && s.bad == (s0.bad || |s0.table| == MAX_NODES) && s.pos == s0.pos + 1
    requires |s0.table| < MAX_NODES ==> n == |s0.table| && s.table == s0.table + [match t
                                                      case Num(v) => Blank(NNum).(ival := v)
                                                      case Str(off) => Blank(NStr).(strOff := off)
                                                      case _ => Blank(NVar).(name := t.name)]
    ensures Outcome(Ok(t, s0.pos + 1), n, s0, s)
  {
  }

  lemma CloseStep(r: Parse, ts: seq<Token>, t: Token, n: nat, s0: Snap, s1: Snap, s: Snap)
    requires Outcome(r, n, s0.(pos := s0.pos + 1), s1) || Outcome(r, n, s0, s1)
    requires s.bad == (s1.bad || Peek(ts, s1.pos) != t) && s.table == s1.table
    requires s.pos == if Peek(ts, s1.pos) == t then s1.pos + 1 else s1.pos
    ensures Outcome(Closed(r, ts, t), n, s0, s)
  {
    hide Layout, Size, Root;
  }

  lemma UnRows(op: UnOp, e: Tree, lo: nat, next: int)
    ensures Layout(Un(op, e), lo, next) == [Blank(NUn).(op := OpToken(op), c0 := Root(e, lo + 1),
        next := next)] + Layout(e, lo + 1, -1)
    ensures Root(Un(op, e), lo) == lo && Size(Un(op, e)) == 1 + Size(e)
  {
  }

  lemma UnStep(op: UnOp, e: Parse, n: nat, c: nat, s0: Snap, s1: Snap, s2: Snap, s: Snap)
    requires |s0.table| <= MAX_NODES && s1.bad == (s0.bad || |s0.table| == MAX_NODES)
    requires |s0.table| < MAX_NODES ==> n == |s0.table| && s1.table == s0.table + [Blank(NUn).(op := OpToken(op))]
    requires Outcome(e, c, s1, s2) && s.bad == s2.bad && s.pos == s2.pos
    requires n < |s2.table| ==> s.table == s2.table[n := s2.table[n].(c0 := c)]
    ensures Outcome(if e.Ok? then Ok(Un(op, e.t), e.pos) else Bad, n, s0, s)
  {
    hide Layout, Size, Root;
    if e.Ok? {
      UnRows(op, e.t, |s0.table|, -1);
    }
  }

  lemma AssignRows(op: AssignOp, n: string, e: Tree, lo: nat, next: int)
    ensures Layout(Assign(op, n, e), lo, next)
         == [Blank(NVar).(name := n)] + Layout(e, lo + 1, -1)
            + [Blank(NAssign).(op := TAssign(op), c0 := lo, c1 := Root(e, lo + 1), next := next)]
    ensures Root(Assign(op, n, e), lo) == lo + 1 + Size(e) && Size(Assign(op, n, e)) == 2 + Size(e)
  {
  }

  lemma AssignStep(ts: seq<Token>, op: AssignOp, l: Parse, e: Parse, lhs: nat, rhs: nat, n: nat,
                   s0: Snap, s1: Snap, s2: Snap, s: Snap)
    requires l == Binop(ts, s0.pos, 1) && Outcome(l, lhs, s0, s1) && (!s1.bad ==> l.Ok? && l.t.Var?)
    requires Peek(ts, s1.pos) == TAssign(op) && e == Expr(ts, s1.pos + 1)
    requires Outcome(e, rhs, s1.(pos := s1.pos + 1), s2)
    requires |s2.table| <= MAX_NODES && s.bad == (s2.bad || |s2.table| == MAX_NODES) && s.pos == s2.pos
    requires |s2.table| < MAX_NODES ==>
      n == |s2.table| && s.table == s2.table + [Blank(NAssign).(op := TAssign(op), c0 := lhs, c1 := rhs)]
    ensures Outcome(Expr(ts, s0.pos), n, s0, s)
  {
    hide Layout, Size, Root, Binop;
    if s1.bad {
      NoAssign(ts, l, lhs, s0, s1, s1.(bad := true));
    } else {
      RootKind(l.t, |s0.table|);
      if e.Ok? {
        AssignRows(op, l.t.name, e.t, |s0.table|, -1);
      }
    }
  }

  /** No assignment follows, or one that is refused: its left side is no variable, or an error has been reported
      already. */
  lemma NoAssign(ts: seq<Token>, l: Parse, n: nat, s0: Snap, s1: Snap, s: Snap)
    requires l == Binop(ts, s0.pos, 1) && Outcome(l, n, s0, s1)
    requires !s1.bad && Peek(ts, s1.pos).TAssign? ==> !l.t.Var?
    requires s == s1.(bad := s1.bad || Peek(ts, s1.pos).TAssign?)
    ensures Outcome(Expr(ts, s0.pos), n, s0, s)
  {
    hide Layout, Root, Binop;
  }

  // ---- binary operators ----

  lemma BinRows(op: BinOp, l: Tree, r: Tree, lo: nat, next: int)
    ensures Layout(Bin(op, l, r), lo, next)
         == Layout(l, lo, -1) + Layout(r, lo + Size(l), -1)
            + [Blank(NBin).(op := TOp(op), c0 := Root(l, lo), c1 := Root(r, lo + Size(l)), next := next)]
    ensures Root(Bin(op, l, r), lo) == lo + Size(l) + Size(r) && Size(Bin(op, l, r)) == Size(l) + Size(r) + 1
  {
  }

  /** The loop over binary operators only adds rows. */
  lemma {:induction false} BinLoopGrows(ts: seq<Token>, p: nat, prec: nat, lhs: Tree)
    ensures var r := BinLoop(ts, p, prec, lhs); r.Ok? ==> Size(r.t) >= Size(lhs)
    decreases Left(ts, p)
  {
    hide Binop;
    var t := Peek(ts, p);
    if t.TOp? && BinPrec(t.op) >= prec {
      var rhs := Binop(ts, p + 1, BinPrec(t.op) + 1);
      if rhs.Ok? {
        BinLoopGrows(ts, rhs.pos, prec, Bin(t.op, lhs, rhs.t));
      }
    }
  }

  /** Inside the loop over operators, `left` being the operand so far. */
  ghost predicate BinOpen(ts: seq<Token>, prec: nat, left: Tree, lhs: nat, s0: Snap, s: Snap) {
    var r := Binop(ts, s0.pos, prec);
    && (!s.bad ==> !s0.bad && Outcome(Ok(left, s.pos), lhs, s0, s) && r == BinLoop(ts, s.pos, prec, left))
    && (s.bad && !s0.bad ==> !Fits(r, |s0.table|))
  }

  lemma BinStart(ts: seq<Token>, prec: nat, l: Parse, lhs: nat, s0: Snap, s: Snap)
    requires l == Primary(ts, s0.pos) && Outcome(l, lhs, s0, s)
    ensures BinOpen(ts, prec, if l.Ok? then l.t else Break, lhs, s0, s)
  {
    hide Layout, Size, Root, Primary, BinLoop;
    if l.Ok? {
      BinLoopGrows(ts, l.pos, prec, l.t);
    }
  }

  lemma BinStep(ts: seq<Token>, prec: nat, op: BinOp, left: Tree, e: Parse, lhs: nat, rhs: nat, n: nat,
                s0: Snap, s1: Snap, s2: Snap, s: Snap)
    requires BinOpen(ts, prec, left, lhs, s0, s1) && Peek(ts, s1.pos) == TOp(op) && BinPrec(op) >= prec
    requires e == Binop(ts, s1.pos + 1, BinPrec(op) + 1) && Outcome(e, rhs, s1.(pos := s1.pos + 1), s2)
    requires |s2.table| <= MAX_NODES && s.bad == (s2.bad || |s2.table| == MAX_NODES) && s.pos == s2.pos
    requires |s2.table| < MAX_NODES ==>
      n == |s2.table| && s.table == s2.table + [Blank(NBin).(op := TOp(op), c0 := lhs, c1 := rhs)]
    ensures BinOpen(ts, prec, Bin(op, left, if e.Ok? then e.t else Break), n, s0, s)
  {
    hide Layout, Size, Root, Primary, Binop, BinPrec;
    if e.Ok? {
      BinRows(op, left, e.t, |s0.table|, -1);
      BinLoopGrows(ts, e.pos, prec, Bin(op, left, e.t));
    }
  }

  lemma BinEnd(ts: seq<Token>, prec: nat, left: Tree, lhs: nat, s0: Snap, s: Snap)
    requires BinOpen(ts, prec, left, lhs, s0, s) && TokPrec(Peek(ts, s.pos)) < prec
    ensures Outcome(Binop(ts, s0.pos, prec), lhs, s0, s)
  {
    hide Layout, Size, Root, Primary, Binop, BinPrec;
  }

  // ---- lists ----

  function Prepend(d: Trees, r: ParseList): ParseList {
    if r.OkList? then OkList(Concat(d, r.ts), r.pos) else BadList
  }

  /** The table after linking row `a` behind row `prev`, or to its owner `n` when it is the first. */
  function Chained(t: seq<Node>, n: nat, prev: int, a: nat): seq<Node> {
    if prev < 0 then (if n < |t| then t[n := t[n].(c0 := a)] else t)
    else if prev < |t| then t[prev := t[prev].(next := a)] else t
  }

  /** A list hangs on row |was|, which is `row`; its trees so far are `d`, the root of the last one is `prev`. */
  ghost predicate Listed(was: seq<Node>, row: Node, d: Trees, prev: int, table: seq<Node>) {
    var lo := |was| + 1;
    table == was + [row.(c0 := FirstRoot(d, lo))] + ListLayout(d, lo) && prev == LastRoot(d, lo)
  }

  lemma ListedNone(was: seq<Node>, row: Node)
    requires row.c0 == -1
    ensures Listed(was, row, Nil, -1, was + [row])
  {
  }

  lemma ListedMore(was: seq<Node>, row: Node, d: Trees, prev: int, t1: seq<Node>, e: Tree, a: nat, t2: seq<Node>)
    requires Listed(was, row, d, prev, t1) && t2 == t1 + Layout(e, |t1|, -1) && a == Root(e, |t1|)
    ensures Listed(was, row, Snoc(d, e), a, Chained(t2, |was|, prev, a))
    ensures |t1| == |was| + 1 + ListSize(d) && |t2| == |was| + 1 + ListSize(Snoc(d, e))
    ensures (if prev < 0 then |was| else prev) < |t2|
  {
    hide Layout, ListLayout, ListSize, FirstRoot, LastRoot, Root, Snoc, Linked, Chained, Listed;
    var lo, last := |was| + 1, Layout(e, |t1|, -1);
    ListedSizes(was, row, d, prev, t1);
    ListSnoc(d, e, lo);
    ListedChain(was, row, d, prev, t1, last, a);
    assert FirstRoot(Snoc(d, e), lo) == if d.Nil? then a else FirstRoot(d, lo);
    IsListed(was, row, Snoc(d, e), a, Chained(t2, |was|, prev, a));
  }

  lemma IsListed(was: seq<Node>, row: Node, d: Trees, prev: int, table: seq<Node>)
    requires table == was + [row.(c0 := FirstRoot(d, |was| + 1))] + ListLayout(d, |was| + 1)
    requires prev == LastRoot(d, |was| + 1)
    ensures Listed(was, row, d, prev, table)
  {
    hide ListLayout, LastRoot, FirstRoot;
  }

  lemma ListedSizes(was: seq<Node>, row: Node, d: Trees, prev: int, t: seq<Node>)
    requires Listed(was, row, d, prev, t)
    ensures |t| == |was| + 1 + ListSize(d) && (if prev < 0 then |was| else prev) < |t| && (d.Nil? ==> ListSize(d) == 0)
  {
    hide ListLayout, LastRoot, FirstRoot;
  }

  /** Whether it is the first tree or not, its root is linked in. */
  lemma ListedChain(was: seq<Node>, row: Node, d: Trees, prev: int, t1: seq<Node>, last: seq<Node>, a: nat)
    requires Listed(was, row, d, prev, t1)
    ensures var lo := |was| + 1;
      Chained(t1 + last, |was|, prev, a) == was + [row.(c0 := if d.Nil? then a
          else FirstRoot(d, lo))] + (Linked(d, lo, a) + last)
  {
    hide ListLayout, ListSize, FirstRoot, LastRoot, Linked, Chained;
    var lo := |was| + 1;
    var first, rows := row.(c0 := FirstRoot(d, lo)), ListLayout(d, lo);
    LinkedRows(d, lo, a);
    if d.Cons? {
      ChainBehind(was + [first], rows, last, |was|, prev, a);
    } else {
      ChainFirst(was, first, last, a);
      assert was + [first] + rows == was + [first] && [] + last == last;
    }
  }

  lemma ChainFirst(was: seq<Node>, row: Node, last: seq<Node>, a: nat)
    ensures Chained(was + [row] + last, |was|, -1, a) == was + [row.(c0 := a)] + last
  {
  }

  lemma ChainBehind(head: seq<Node>, rows: seq<Node>, last: seq<Node>, n: nat, prev: nat, a: nat)
    requires |head| <= prev < |head| + |rows|
    ensures var k := prev - |head|;
      Chained(head + rows + last, n, prev, a) == head + (rows[k := rows[k].(next := a)] + last)
  {
  }

  lemma LinkedRows(d: Trees, lo: nat, a: int)
    ensures d.Nil? ==> Linked(d, lo, a) == [] == ListLayout(d, lo)
    ensures d.Cons? ==>
      var rows, k := ListLayout(d, lo), LastRoot(d, lo) - lo;
      Linked(d, lo, a) == rows[k := rows[k].(next := a)]
  {
    hide Layout, LastRoot;
  }

  lemma ArgsStep(ts: seq<Token>, p: nat, d: Trees)
    requires Peek(ts, p) != RPar
    ensures var e, all := Expr(ts, p), Prepend(d, Args(ts, p));
      && (e.Bad? ==> all.BadList?)
      && (e.Ok? && Peek(ts, e.pos) == Comma ==> all == Prepend(Snoc(d, e.t), Args(ts, e.pos + 1)))
      && (e.Ok? && Peek(ts, e.pos) != Comma ==> all == OkList(Snoc(d, e.t), e.pos))
      && (e.Ok? && all.OkList? ==> ListSize(all.ts) >= ListSize(d) + Size(e.t))
  {
    hide Size, Expr;
    var e := Expr(ts, p);
    if e.Ok? {
      var a := Args(ts, e.pos + 1);
      if a.OkList? {
        ConcatSnoc(d, e.t, a.ts);
        ConcatSize(d, Cons(e.t, a.ts));
      }
      ConcatSize(d, Cons(e.t, Nil));
    }
  }

  // ---- calls ----

  function CallRow(name: string): Node { Blank(NCall).(name := name) }

  /** Inside the loop over arguments, `d` being those so far; `more` says another one may follow. */
  ghost predicate CallOpen(ts: seq<Token>, name: string, d: Trees, n: nat, prev: int, argi: int, more: bool, s0: Snap,
                           s: Snap) {
    && (!s.bad ==>
          && !s0.bad && n == |s0.table| && argi == Length(d) && Listed(s0.table, CallRow(name), d, prev, s.table)
          && Args(ts, s0.pos) == if more then Prepend(d, Args(ts, s.pos)) else OkList(d, s.pos))
    && (s.bad && !s0.bad ==> !Fits(CallAt(ts, s0.pos, name), |s0.table|))
  }

  lemma CallStart(ts: seq<Token>, name: string, n: nat, s0: Snap, s: Snap)
    requires |s0.table| <= MAX_NODES && s.bad == (s0.bad || |s0.table| == MAX_NODES) && s.pos == s0.pos
    requires |s0.table| < MAX_NODES ==> n == |s0.table| && s.table == s0.table + [CallRow(name)]
    ensures CallOpen(ts, name, Nil, n, -1, 0, true, s0, s)
  {
    hide Args, Listed;
    ListedNone(s0.table, CallRow(name));
  }

  lemma CallSize(name: string, args: Trees)
    ensures Size(Call(name, args)) == 1 + ListSize(args)
  {
  }

  lemma CallStep(ts: seq<Token>, name: string, d: Trees, e: Parse, n: nat, prev: int, argi: int, a: nat,
                 s0: Snap, s1: Snap, s2: Snap, s: Snap, comma: bool)
    requires CallOpen(ts, name, d, n, prev, argi, true, s0, s1) && Peek(ts, s1.pos) != RPar && !s1.bad
    requires e == Expr(ts, s1.pos) && Outcome(e, a, s1, s2)
    requires (if prev < 0 then n else prev) < |s2.table| ==> s.table == Chained(s2.table, n, prev, a)
    requires s.bad == s2.bad && comma == (Peek(ts, s2.pos) == Comma) && s.pos == if comma then s2.pos + 1 else s2.pos
    ensures CallOpen(ts, name, Snoc(d, if e.Ok? then e.t else Break), n, a, argi + 1, comma, s0, s)
  {
    hide Layout, Size, Root, Expr, Args, Listed, Chained, Snoc, Prepend, ListSize, Length;
    ArgsStep(ts, s1.pos, d);
    if e.Ok? && !s.bad {
      ListedMore(s0.table, CallRow(name), d, prev, s1.table, e.t, a, s2.table);
      ListSnoc(d, e.t, 0);
    }
    var all := Args(ts, s0.pos);
    if s.bad && all.OkList? {
      ListedSize(s0.table, CallRow(name), d, prev, s1.table);
      CallSize(name, all.ts);
    }
  }

  lemma ListedSize(was: seq<Node>, row: Node, d: Trees, prev: int, t: seq<Node>)
    requires Listed(was, row, d, prev, t)
    ensures |t| == |was| + 1 + ListSize(d)
  {
  }

  lemma CallRows(n: string, args: Trees, lo: nat, next: int)
    ensures Layout(Call(n, args), lo, next)
         == [Blank(NCall).(name := n, ival := Length(args), c0 := FirstRoot(args, lo + 1),
             next := next)] + ListLayout(args, lo + 1)
    ensures Root(Call(n, args), lo) == lo
  {
  }

  lemma CallEnd(ts: seq<Token>, name: string, d: Trees, n: nat, prev: int, argi: int, more: bool, s0: Snap, s1: Snap,
                s: Snap)
    requires CallOpen(ts, name, d, n, prev, argi, more, s0, s1) && |s1.table| <= MAX_NODES
    requires more ==> Peek(ts, s1.pos) == RPar || s1.bad
    requires s.bad == (s1.bad || Peek(ts, s1.pos) != RPar)
    requires s.pos == if Peek(ts, s1.pos) == RPar then s1.pos + 1 else s1.pos
    requires n < |s1.table| ==> s.table == s1.table[n := s1.table[n].(ival := argi)]
    ensures Outcome(CallAt(ts, s0.pos, name), n, s0, s)
  {
    hide Layout, Size, Root, Expr, ListSize, ListLayout, FirstRoot, LastRoot, Length;
    if !s1.bad {
      ConcatNil(d);
      CallRows(name, d, |s0.table|, -1);
      CallSize(name, d);
      ListedSize(s0.table, CallRow(name), d, prev, s1.table);
    }
  }
}
