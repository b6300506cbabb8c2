/** Parse steps composed: what a run of the parser over several constructs adds to the table. */
module ZbcStmtSteps {
  import opened ZbcSyntax
  import opened ZbcGrammar
  import opened ZbcNodes
  import opened ZbcParseSteps

  /** What a stretch of parsing is due to add: rows, and the position it ends at, unless the grammar has an error
      there. */
  datatype Gain = Gain(rows: seq<Node>, pos: nat) | NoGain

  /** The stretch from `s0` to `s` added `g`, or failed because it had to. */
  ghost predicate Did(g: Gain, s0: Snap, s: Snap) {
    && (!s.bad <==> !s0.bad && g.Gain? && |s0.table| + |g.rows| <= MAX_NODES)
    && (!s.bad ==> s.table == s0.table + g.rows && s.pos == g.pos)
  }

  function Both(a: Gain, b: Gain): Gain {
    if a.NoGain? || b.NoGain? then NoGain else Gain(a.rows + b.rows, b.pos)
  }

  /** One stretch after another; what a stretch does after an error does not matter. */
  lemma Then(a: Gain, b: Gain, s0: Snap, s1: Snap, s: Snap)
    requires Did(a, s0, s1) && (s1.bad ==> s.bad) && (!s1.bad ==> Did(b, s1, s))
    ensures Did(Both(a, b), s0, s)
  {
  }

  function Of(r: Parse, lo: nat): Gain {
    if r.Ok? then Gain(Layout(r.t, lo, -1), r.pos) else NoGain
  }

  function OfOpt(r: ParseOpt, lo: nat): Gain {
    if r.OkOpt? then Gain(OptLayout(r.o, lo), r.pos) else NoGain
  }

  lemma OutcomeDid(r: Parse, n: nat, s0: Snap, s: Snap)
    ensures Outcome(r, n, s0, s) <==> Did(Of(r, |s0.table|), s0, s) && (!s.bad ==> n == Root(r.t, |s0.table|))
  {
    hide Layout, Root;
  }

  /** An optional construct: `i` is the row of its root, or -1. */
  ghost predicate OptOutcome(r: ParseOpt, i: int, s0: Snap, s: Snap) {
    Did(OfOpt(r, |s0.table|), s0, s) && (!s.bad ==> i == OptRoot(r.o, |s0.table|))
  }

  lemma OptIs(r: Parse, n: nat, s0: Snap, s: Snap)
    requires Outcome(r, n, s0, s)
    ensures OptOutcome(if r.Ok? then OkOpt(Some(r.t), r.pos) else BadOpt, n, s0, s)
  {
    hide Layout, Root;
  }

  lemma OptIsNone(p: nat, s: Snap)
    requires s.pos == p && |s.table| <= MAX_NODES
    ensures OptOutcome(OkOpt(None, p), -1, s, s)
  {
    assert s.table + [] == s.table;
  }

  /** A token that had to be there. */
  function Step(ts: seq<Token>, p: nat, t: Token): Gain {
    if Peek(ts, p) == t then Gain([], p + 1) else NoGain
  }

  lemma ExpectDid(ts: seq<Token>, t: Token, s0: Snap, s: Snap)
    requires |s0.table| <= MAX_NODES && s.table == s0.table
    requires s.bad == (s0.bad || Peek(ts, s0.pos) != t) && s.pos == if Peek(ts, s0.pos) == t then s0.pos + 1 else s0.pos
    ensures Did(Step(ts, s0.pos, t), s0, s)
  {
    assert s0.table + [] == s0.table;
  }

  /** A row entered behind its children finishes a construct. */
  lemma RowLast(r: Parse, g: Gain, row: Node, n: nat, s0: Snap, s1: Snap, s: Snap)
    requires Did(g, s0, s1) && s.pos == s1.pos && |s1.table| <= MAX_NODES
    requires s.bad == (s1.bad || |s1.table| == MAX_NODES)
    requires |s1.table| < MAX_NODES ==> n == |s1.table| && s.table == s1.table + [row]
    requires g.Gain? <==> r.Ok?
    requires r.Ok? ==> g.pos == r.pos && Size(r.t) == |g.rows| + 1
    requires r.Ok? && !s1.bad ==>
      Layout(r.t, |s0.table|, -1) == g.rows + [row] && Root(r.t, |s0.table|) == |s0.table| + |g.rows|
    ensures Outcome(r, n, s0, s)
  {
    hide Layout, Root, Size;
  }

  lemma LeafStmt(r: Parse, row: Node, n: nat, s0: Snap, s1: Snap, s: Snap, ok: bool)
    requires |s0.table| <= MAX_NODES && s1.table == s0.table && s1.bad == (s0.bad || !ok)
    requires s.bad == (s1.bad || |s0.table| == MAX_NODES) && (ok <==> r.Ok?) && (ok ==> s.pos == r.pos)
    requires |s0.table| < MAX_NODES ==> n == |s0.table| && s.table == s0.table + [row]
    requires r.Ok? ==> Layout(r.t, |s0.table|, -1) == [row] && Root(r.t, |s0.table|) == |s0.table|
    ensures Outcome(r, n, s0, s)
  {
    hide Layout, Root;
  }

  /** A row entered in front of its one optional child, to which it is linked afterwards. */
  lemma RowFirst(r: Parse, o: ParseOpt, row: Node, n: nat, c: int, s0: Snap, s1: Snap, s2: Snap, s: Snap)
    requires |s0.table| <= MAX_NODES && s1.bad == (s0.bad || |s0.table| == MAX_NODES)
    requires |s0.table| < MAX_NODES ==> n == |s0.table| && s1.table == s0.table + [row]
    requires OptOutcome(o, c, s1, s2) && s.bad == s2.bad && s.pos == s2.pos
    requires n < |s2.table| ==> s.table == s2.table[n := s2.table[n].(c0 := c)]
    requires o.OkOpt? <==> r.Ok?
    requires r.Ok? ==>
      && r.pos == o.pos && Root(r.t, |s0.table|) == |s0.table|
      && Layout(r.t, |s0.table|, -1) == [row.(c0 := OptRoot(o.o, |s0.table| + 1))] + OptLayout(o.o, |s0.table| + 1)
    ensures Outcome(r, n, s0, s)
  {
    hide Layout, Root, OptLayout, OptRoot;
    if r.Ok? {
      assert Size(r.t) == 1 + OptSize(o.o);
    }
  }

  // ---- statements with several parts ----

  lemma IfStep(ts: seq<Token>, c: Parse, y: Parse, e: ParseOpt, ci: nat, yi: nat, ei: int, n: nat,
               s0: Snap, sp: Snap, s1: Snap, s2: Snap, s3: Snap, s: Snap)
    requires Peek(ts, s0.pos) == KwIf && sp == s0.(pos := s0.pos + 1)
    requires c == Paren(ts, s0.pos + 1) && y == Stmt(ts, s1.pos) && e == ElseAt(ts, s2.pos)
    requires Outcome(c, ci, sp, s1) && Outcome(y, yi, s1, s2) && OptOutcome(e, ei, s2, s3)
    requires s.pos == s3.pos && |s3.table| <= MAX_NODES && s.bad == (s3.bad || |s3.table| == MAX_NODES)
    requires |s3.table| < MAX_NODES ==>
      n == |s3.table| && s.table == s3.table + [Blank(NIf).(c0 := ci, c1 := yi, c2 := ei)]
    ensures Outcome(Stmt(ts, s0.pos), n, s0, s)
  {
    hide Layout, Root, OptSize, OptRoot, OptLayout, Paren, Outcome, Stmt, Size, ElseAt;
    IfParse(ts, s0.pos);
    var lo, r := |s0.table|, Stmt(ts, s0.pos);
    var y0 := if c.Ok? then Stmt(ts, c.pos) else Bad;
    var e0 := if y0.Ok? then ElseAt(ts, y0.pos) else BadOpt;
    var a := Of(c, lo);
    var b := Of(y0, if c.Ok? then lo + Size(c.t) else 0);
    var d := OfOpt(e0, if y0.Ok? then lo + Size(c.t) + Size(y0.t) else 0);
    OutcomeDid(c, ci, sp, s1);
    OutcomeDid(y, yi, s1, s2);
    Then(a, b, s0, s1, s2);
    Then(Both(a, b), d, s0, s2, s3);
    if r.Ok? {
      IfRows(c.t, y0.t, e0.o, lo, -1);
      IfSize(c.t, y0.t, e0.o);
      assert r.t == If(c.t, y0.t, e0.o);
    }
    assert r.Ok? && !s3.bad ==> Blank(NIf).(c0 := ci, c1 := yi, c2 := ei) == IfRow(c.t, y0.t, e0.o, lo, -1);
    RowLast(r, Both(Both(a, b), d), Blank(NIf).(c0 := ci, c1 := yi, c2 := ei), n, s0, s3, s);
  }

  lemma WhileStep(ts: seq<Token>, c: Parse, b: Parse, ci: nat, bi: nat, n: nat,
                  s0: Snap, sp: Snap, s1: Snap, s2: Snap, s: Snap)
    requires Peek(ts, s0.pos) == KwWhile && sp == s0.(pos := s0.pos + 1)
    requires c == Paren(ts, s0.pos + 1) && b == Stmt(ts, s1.pos)
    requires Outcome(c, ci, sp, s1) && Outcome(b, bi, s1, s2)
    requires s.pos == s2.pos && |s2.table| <= MAX_NODES && s.bad == (s2.bad || |s2.table| == MAX_NODES)
    requires |s2.table| < MAX_NODES ==> n == |s2.table| && s.table == s2.table + [Blank(NWhile).(c0 := ci, c1 := bi)]
    ensures Outcome(Stmt(ts, s0.pos), n, s0, s)
  {
    hide Layout, Root, Paren, Outcome, Stmt, Size;
    WhileParse(ts, s0.pos);
    var lo, r := |s0.table|, Stmt(ts, s0.pos);
    var b0 := if c.Ok? then Stmt(ts, c.pos) else Bad;
    var x := Of(c, lo);
    var y := Of(b0, if c.Ok? then lo + Size(c.t) else 0);
    OutcomeDid(c, ci, sp, s1);
    OutcomeDid(b, bi, s1, s2);
    Then(x, y, s0, s1, s2);
    if r.Ok? {
      WhileRows(c.t, b0.t, lo, -1);
      WhileSize(c.t, b0.t);
    }
    RowLast(r, Both(x, y), Blank(NWhile).(c0 := ci, c1 := bi), n, s0, s2, s);
  }

  // ---- for ----

  /** The head of a for loop: rows of its three optional parts, and the positions they leave. */
  function HeadGain(h: ParseFor, lo: nat): Gain {
    if h.BadFor? then NoGain
    else Gain(OptLayout(h.start, lo) + OptLayout(h.test, lo + OptSize(h.start))
              + OptLayout(h.post, lo + OptSize(h.start) + OptSize(h.test)), h.pos)
  }

  ghost predicate HeadOutcome(h: ParseFor, i: int, c: int, p: int, s0: Snap, s: Snap) {
    && Did(HeadGain(h, |s0.table|), s0, s)
    && (!s.bad ==> var lo := |s0.table|;
          && i == OptRoot(h.start, lo) && c == OptRoot(h.test, lo + OptSize(h.start))
          && p == OptRoot(h.post, lo + OptSize(h.start) + OptSize(h.test)))
  }

  /** An optional part between the token before it and the token behind it. */
  function Guarded(ts: seq<Token>, r: ParseOpt, lo: nat, t: Token): Gain {
    if r.OkOpt? then Both(OfOpt(r, lo), Step(ts, r.pos, t)) else NoGain
  }

  function Part(r: ParseOpt): Opt { if r.OkOpt? then r.o else None }

  /** Such a part parsed: `i` is the row of its root, or -1. */
  ghost predicate GuardOutcome(ts: seq<Token>, r: ParseOpt, i: int, t: Token, s0: Snap, s: Snap) {
    && Did(Guarded(ts, r, |s0.table|, t), s0, s)
    && (!s.bad ==> i == OptRoot(r.o, |s0.table|))
  }

  lemma HeadStep(ts: seq<Token>, i: ParseOpt, c: ParseOpt, q: ParseOpt, ii: int, ci: int, qi: int,
                 s0: Snap, s1: Snap, s2: Snap, s3: Snap, s: Snap)
    requires Did(Step(ts, s0.pos, LPar), s0, s1)
    requires i == ForStart(ts, s1.pos) && GuardOutcome(ts, i, ii, Semi, s1, s2)
    requires c == Optional(ts, s2.pos, Semi) && GuardOutcome(ts, c, ci, Semi, s2, s3)
    requires q == Optional(ts, s3.pos, RPar) && GuardOutcome(ts, q, qi, RPar, s3, s)
    ensures HeadOutcome(ForHead(ts, s0.pos), ii, ci, qi, s0, s)
  {
    hide OptLayout, OptRoot, ForStart, Optional, ForHead, Did, OptSize, Peek, Guarded;
    var lo, h := |s0.table|, ForHead(ts, s0.pos);
    var a := Step(ts, s0.pos, LPar);
    var i0 := if a.Gain? then ForStart(ts, a.pos) else BadOpt;
    var b := Guarded(ts, i0, lo, Semi);
    var c0 := if b.Gain? then Optional(ts, b.pos, Semi) else BadOpt;
    var d := Guarded(ts, c0, lo + OptSize(Part(i0)), Semi);
    var q0 := if d.Gain? then Optional(ts, d.pos, RPar) else BadOpt;
    var e := Guarded(ts, q0, lo + OptSize(Part(i0)) + OptSize(Part(c0)), RPar);
    DidIs(a, s0, s1);
    DidIs(Guarded(ts, i, |s1.table|, Semi), s1, s2);
    DidIs(Guarded(ts, c, |s2.table|, Semi), s2, s3);
    DidIs(Guarded(ts, q, |s3.table|, RPar), s3, s);
    GuardedIs(ts, i0, lo, Semi);
    GuardedIs(ts, c0, lo + OptSize(Part(i0)), Semi);
    GuardedIs(ts, q0, lo + OptSize(Part(i0)) + OptSize(Part(c0)), RPar);
    Then(a, b, s0, s1, s2);
    Then(Both(a, b), d, s0, s2, s3);
    Then(Both(Both(a, b), d), e, s0, s3, s);
    HeadGains(ts, s0.pos, lo);
  }

  lemma GuardedIs(ts: seq<Token>, r: ParseOpt, lo: nat, t: Token)
    ensures var g := Guarded(ts, r, lo, t);
      && (g.Gain? ==> r.OkOpt? && |g.rows| == OptSize(r.o))
  {
    hide OptLayout;
  }

  /** The head of a for loop, part by part. */
  lemma HeadGains(ts: seq<Token>, p: nat, lo: nat)
    ensures var a := Step(ts, p, LPar);
      var i := if a.Gain? then ForStart(ts, a.pos) else BadOpt;
      var b := Guarded(ts, i, lo, Semi);
      var c := if b.Gain? then Optional(ts, b.pos, Semi) else BadOpt;
      var d := Guarded(ts, c, lo + OptSize(Part(i)), Semi);
      var q := if d.Gain? then Optional(ts, d.pos, RPar) else BadOpt;
      var e := Guarded(ts, q, lo + OptSize(Part(i)) + OptSize(Part(c)), RPar);
      var h := ForHead(ts, p);
      && HeadGain(h, lo) == Both(Both(Both(a, b), d), e)
      && (h.OkFor? ==> h.start == i.o && h.test == c.o && h.post == q.o)
  {
    hide OptLayout, ForStart, Optional, OptSize;
  }

  lemma DidIs(g: Gain, s0: Snap, s: Snap)
    requires Did(g, s0, s)
    ensures !s.bad ==> g.Gain? && s.table == s0.table + g.rows && s.pos == g.pos && !s0.bad
  {
  }

  lemma GuardedDid(ts: seq<Token>, r: ParseOpt, i: int, s0: Snap, s1: Snap, s: Snap, t: Token)
    requires OptOutcome(r, i, s0, s1) && Did(Step(ts, s1.pos, t), s1, s)
    ensures GuardOutcome(ts, r, i, t, s0, s)
  {
    hide OptLayout, OptRoot;
    Then(OfOpt(r, |s0.table|), if r.OkOpt? then Step(ts, r.pos, t) else NoGain, s0, s1, s);
  }

  lemma ForStep(ts: seq<Token>, h: ParseFor, b: Parse, ii: int, ci: int, qi: int, bi: nat, n: nat,
                s0: Snap, sp: Snap, s1: Snap, s2: Snap, s: Snap)
    requires Peek(ts, s0.pos) == KwFor && sp == s0.(pos := s0.pos + 1)
    requires h == ForHead(ts, s0.pos + 1) && b == Stmt(ts, s1.pos)
    requires HeadOutcome(h, ii, ci, qi, sp, s1) && Outcome(b, bi, s1, s2)
    requires s.pos == s2.pos && |s2.table| <= MAX_NODES && s.bad == (s2.bad || |s2.table| == MAX_NODES)
    requires |s2.table| < MAX_NODES ==>
      n == |s2.table| && s.table == s2.table + [Blank(NFor).(c0 := ii, c1 := ci, c2 := qi, c3 := bi)]
    ensures Outcome(Stmt(ts, s0.pos), n, s0, s)
  {
    hide Layout, Root, Outcome, Stmt, Size, OptLayout, OptRoot, OptSize, ForHead;
    ForParse(ts, s0.pos);
    var lo, r := |s0.table|, Stmt(ts, s0.pos);
    var b0 := if h.OkFor? then Stmt(ts, h.pos) else Bad;
    var x := HeadGain(h, lo);
    var y := Of(b0, if h.OkFor? then lo + OptSize(h.start) + OptSize(h.test) + OptSize(h.post) else 0);
    OutcomeDid(b, bi, s1, s2);
    Then(x, y, s0, s1, s2);
    if r.Ok? {
      ForRows(h.start, h.test, h.post, b0.t, lo, -1);
      ForSize(h.start, h.test, h.post, b0.t);
    }
    RowLast(r, Both(x, y), Blank(NFor).(c0 := ii, c1 := ci, c2 := qi, c3 := bi), n, s0, s2, s);
  }

  lemma IfSize(c: Tree, y: Tree, n: Opt)
    ensures Size(If(c, y, n)) == Size(c) + Size(y) + OptSize(n) + 1
  {
  }

  lemma WhileSize(c: Tree, b: Tree)
    ensures Size(While(c, b)) == Size(c) + Size(b) + 1
  {
  }

  lemma ForSize(i: Opt, c: Opt, p: Opt, b: Tree)
    ensures Size(For(i, c, p, b)) == OptSize(i) + OptSize(c) + OptSize(p) + Size(b) + 1
  {
  }

  // ---- the rows of each statement ----

  lemma IfRows(c: Tree, y: Tree, n: Opt, lo: nat, next: int)
    ensures var t := If(c, y, n);
      && Layout(t, lo, next) == Layout(c, lo, -1) + Layout(y, lo + Size(c), -1) + OptLayout(n,
          lo + Size(c) + Size(y)) + [IfRow(c, y, n, lo, next)]
      && Root(t, lo) == lo + Size(c) + Size(y) + OptSize(n)
  {
    hide Layout, Size, Root, OptSize, OptLayout, IfRow, StmtRows;
    StmtLayout(If(c, y, n), lo, next);
    IfStmtRows(c, y, n, lo, next);
    IfRoot(c, y, n, lo);
  }

  lemma IfStmtRows(c: Tree, y: Tree, n: Opt, lo: nat, next: int)
    ensures StmtRows(If(c, y, n), lo, next)
         == Layout(c, lo, -1) + Layout(y, lo + Size(c), -1) + OptLayout(n,
             lo + Size(c) + Size(y)) + [IfRow(c, y, n, lo, next)]
  {
    hide Layout, Size, Root, OptSize, OptLayout, IfRow;
  }

  lemma IfRoot(c: Tree, y: Tree, n: Opt, lo: nat)
    ensures Root(If(c, y, n), lo) == lo + Size(c) + Size(y) + OptSize(n)
  {
    hide Size, OptSize;
  }

  lemma WhileRows(c: Tree, b: Tree, lo: nat, next: int)
    ensures var t := While(c, b);
      && Layout(t, lo, next) == Layout(c, lo, -1) + Layout(b, lo + Size(c), -1)
                              + [Blank(NWhile).(c0 := Root(c, lo), c1 := Root(b, lo + Size(c)), next := next)]
      && Root(t, lo) == lo + Size(c) + Size(b)
  {
    hide Layout, Size, Root, StmtRows;
    StmtLayout(While(c, b), lo, next);
    WhileStmtRows(c, b, lo, next);
    WhileRoot(c, b, lo);
  }

  lemma WhileRoot(c: Tree, b: Tree, lo: nat)
    ensures Root(While(c, b), lo) == lo + Size(c) + Size(b)
  {
    hide Size;
  }

  lemma WhileStmtRows(c: Tree, b: Tree, lo: nat, next: int)
    ensures StmtRows(While(c, b), lo, next) == Layout(c, lo, -1) + Layout(b, lo + Size(c), -1)
                              + [Blank(NWhile).(c0 := Root(c, lo), c1 := Root(b, lo + Size(c)), next := next)]
  {
    hide Layout, Size, Root;
  }

  lemma ForRows(i: Opt, c: Opt, p: Opt, b: Tree, lo: nat, next: int)
    ensures var t := For(i, c, p, b);
      && Layout(t, lo, next) == OptLayout(i, lo) + OptLayout(c, lo + OptSize(i)) + OptLayout(p,
          lo + OptSize(i) + OptSize(c))
           + Layout(b, lo + OptSize(i) + OptSize(c) + OptSize(p), -1) + [ForRow(i, c, p, b, lo, next)]
      && Root(t, lo) == lo + OptSize(i) + OptSize(c) + OptSize(p) + Size(b)
  {
    hide Layout, Size, Root, OptSize, OptLayout, ForRow, StmtRows;
    StmtLayout(For(i, c, p, b), lo, next);
    ForStmtRows(i, c, p, b, lo, next);
    ForRoot(i, c, p, b, lo);
  }

  lemma ForStmtRows(i: Opt, c: Opt, p: Opt, b: Tree, lo: nat, next: int)
    ensures StmtRows(For(i, c, p, b), lo, next)
         == OptLayout(i, lo) + OptLayout(c, lo + OptSize(i)) + OptLayout(p, lo + OptSize(i) + OptSize(c))
            + Layout(b, lo + OptSize(i) + OptSize(c) + OptSize(p), -1) + [ForRow(i, c, p, b, lo, next)]
  {
    hide Layout, Size, Root, OptSize, OptLayout, ForRow;
  }

  lemma ForRoot(i: Opt, c: Opt, p: Opt, b: Tree, lo: nat)
    ensures Root(For(i, c, p, b), lo) == lo + OptSize(i) + OptSize(c) + OptSize(p) + Size(b)
  {
    hide Size, OptSize;
  }

  lemma DeclLayout(n: string, i: Opt, lo: nat, next: int)
    ensures Layout(Decl(n, i), lo, next) == OptLayout(i, lo) + DeclRows(n, i, lo, next)
    ensures Root(Decl(n, i), lo) == lo + OptSize(i)
    ensures Size(Decl(n, i)) == if i.None? then 3 else OptSize(i) + 2
  {
    hide OptLayout, DeclRows;
  }

  lemma ReturnRows(v: Opt, lo: nat, next: int)
    ensures Layout(Return(v), lo, next) == [Blank(NReturn).(c0 := OptRoot(v, lo + 1), next := next)] + OptLayout(v,
        lo + 1)
    ensures Root(Return(v), lo) == lo
  {
    hide OptLayout, OptRoot;
  }

  lemma JumpRows(t: Tree, lo: nat)
    requires t.Break? || t.Cont?
    ensures Layout(t, lo, -1) == [Blank(if t.Break? then NBreak else NCont)] && Root(t, lo) == lo
  {
  }

  lemma ExprStmtRows(e: Tree, lo: nat, next: int)
    ensures Layout(ExprStmt(e), lo, next) == Layout(e, lo, -1) + [Blank(NExprStmt).(c0 := Root(e, lo), next := next)]
    ensures Root(ExprStmt(e), lo) == lo + Size(e)
  {
  }

  lemma BlockRows(ss: Trees, lo: nat, next: int)
    ensures Layout(Block(ss), lo, next) == [Blank(NBlock).(c0 := FirstRoot(ss, lo + 1), next := next)] + ListLayout(ss,
        lo + 1)
    ensures Root(Block(ss), lo) == lo && Size(Block(ss)) == 1 + ListSize(ss)
  {
    hide FirstRoot, ListLayout;
  }

  // ---- declarations ----

  /** The rows of a declaration entered behind its initial value. */
  lemma DeclStep(name: string, o: ParseOpt, init: int, n: nat, s0: Snap, s1: Snap, s: Snap)
    requires OptOutcome(o, init, s0, s1) && s.pos == s1.pos && |s1.table| <= MAX_NODES
    requires var k := if init < 0 then 3 else 2;
      && s.bad == (s1.bad || |s1.table| + k > MAX_NODES)
      && (!s.bad ==> n == |s1.table| && s.table == s1.table + EnteredDecl(name, init, n))
    ensures Outcome(if o.OkOpt? then Ok(Decl(name, o.o), o.pos) else Bad, n, s0, s)
  {
    hide Layout, Root, OptLayout, OptRoot;
    if o.OkOpt? {
      DeclLayout(name, o.o, |s0.table|, -1);
    }
  }

  /** The rows of a declaration whose initial value has its root in row `init` (-1: none). */
  function EnteredDecl(name: string, init: int, n: nat): seq<Node> {
    [Blank(NAssign).(op := TAssign(Set), c0 := n + 1, c1 := if init < 0 then n + 2
        else init), Blank(NVar).(name := name, ival := 1)]
    + (if init < 0 then [Blank(NNum)] else [])
  }

  /** An optional part with the token behind it consumed. */
  function ClosedOpt(ts: seq<Token>, r: ParseOpt, t: Token): ParseOpt {
    if r.OkOpt? && Peek(ts, r.pos) == t then OkOpt(r.o, r.pos + 1) else BadOpt
  }

  lemma CloseOpt(ts: seq<Token>, r: ParseOpt, t: Token, i: int, s0: Snap, s1: Snap, s: Snap)
    requires OptOutcome(r, i, s0, s1) && s.table == s1.table
    requires s.bad == (s1.bad || Peek(ts, s1.pos) != t) && s.pos == if Peek(ts, s1.pos) == t then s1.pos + 1 else s1.pos
    ensures OptOutcome(ClosedOpt(ts, r, t), i, s0, s)
  {
    hide OptLayout, OptRoot;
  }

  /** `int` is followed by no name. */
  lemma NoInit(ts: seq<Token>, s0: Snap, s: Snap)
    requires !Peek(ts, s0.pos).TIdent? && s.bad
    ensures OptOutcome(InitAt(ts, s0.pos), -1, s0, s)
  {
  }

  lemma BareInit(ts: seq<Token>, s0: Snap, s: Snap)
    requires Peek(ts, s0.pos).TIdent? && s == s0.(pos := s0.pos + 1) && Peek(ts, s.pos) != TAssign(Set)
    requires |s0.table| <= MAX_NODES
    ensures OptOutcome(InitAt(ts, s0.pos), -1, s0, s)
  {
    assert s0.table + [] == s0.table;
  }

  lemma SomeInit(ts: seq<Token>, e: nat, s0: Snap, s1: Snap, s: Snap)
    requires Peek(ts, s0.pos).TIdent? && s1 == s0.(pos := s0.pos + 2) && Peek(ts, s0.pos + 1) == TAssign(Set)
    requires Outcome(Expr(ts, s1.pos), e, s1, s)
    ensures OptOutcome(InitAt(ts, s0.pos), e, s0, s)
  {
    hide Expr, OptLayout, OptRoot, Outcome;
    OptIs(Expr(ts, s1.pos), e, s1, s);
  }

  lemma ForDeclStep(ts: seq<Token>, ok: bool, name: string, init: int, n: nat, s0: Snap, sp: Snap, s1: Snap, s: Snap)
    requires Peek(ts, s0.pos) == KwInt && sp == s0.(pos := s0.pos + 1) && s.pos == s1.pos && |s1.table| <= MAX_NODES
    requires OptOutcome(InitAt(ts, sp.pos), init, sp, s1) && (ok <==> Peek(ts, sp.pos).TIdent?)
    requires ok ==> Peek(ts, sp.pos) == TIdent(name)
    requires if !ok then (s1.bad ==> s.bad)
      else var k := if init < 0 then 3 else 2;
        s.bad == (s1.bad || |s1.table| + k > MAX_NODES)
        && (!s.bad ==> n == |s1.table| && s.table == s1.table + EnteredDecl(name, init, n))
    ensures OptOutcome(ForStart(ts, s0.pos), n, s0, s)
  {
    hide Expr, Layout, Root, OptLayout, OptRoot, Outcome, EnteredDecl;
    if ok {
      DeclStep(name, InitAt(ts, sp.pos), init, n, sp, s1, s);
      OptIs(DeclAt(ts, sp.pos), n, sp, s);
    }
  }

  lemma DeclRefused(ts: seq<Token>, init: int, n: nat, s0: Snap, sp: Snap, s1: Snap, s: Snap)
    requires Peek(ts, s0.pos) == KwInt && sp == s0.(pos := s0.pos + 1) && !Peek(ts, sp.pos).TIdent?
    requires OptOutcome(InitAt(ts, sp.pos), init, sp, s1) && (s1.bad ==> s.bad)
    ensures Outcome(Stmt(ts, s0.pos), n, s0, s)
  {
    hide Expr, Layout, Root, OptLayout, OptRoot;
  }

  lemma DeclDone(ts: seq<Token>, name: string, init: int, n: nat, s0: Snap, sp: Snap, s1: Snap, s2: Snap, s: Snap)
    requires Peek(ts, s0.pos) == KwInt && sp == s0.(pos := s0.pos + 1) && Peek(ts, sp.pos) == TIdent(name)
    requires OptOutcome(InitAt(ts, sp.pos), init, sp, s1) && s2.table == s1.table && s.pos == s2.pos
    requires |s2.table| <= MAX_NODES
    requires s2.bad == (s1.bad || Peek(ts, s1.pos) != Semi)
    requires s2.pos == if Peek(ts, s1.pos) == Semi then s1.pos + 1 else s1.pos
    requires var k := if init < 0 then 3 else 2;
      && s.bad == (s2.bad || |s2.table| + k > MAX_NODES)
      && (!s.bad ==> n == |s2.table| && s.table == s2.table + EnteredDecl(name, init, n))
    ensures Outcome(Stmt(ts, s0.pos), n, s0, s)
  {
    hide Expr, Layout, Root, OptLayout, OptRoot, Outcome, OptOutcome, EnteredDecl;
    var o := InitAt(ts, sp.pos);
    CloseOpt(ts, o, Semi, init, sp, s1, s2);
    DeclStep(name, ClosedOpt(ts, o, Semi), init, n, sp, s2, s);
    Earlier(Stmt(ts, s0.pos), n, s0, sp, s);
  }

  // ---- small statements ----

  lemma ParenStep(ts: seq<Token>, n: nat, s0: Snap, s1: Snap, s2: Snap, s: Snap)
    requires s1.table == s0.table && s1.bad == (s0.bad || Peek(ts, s0.pos) != LPar)
    requires s1.pos == if Peek(ts, s0.pos) == LPar then s0.pos + 1 else s0.pos
    requires Outcome(Expr(ts, s1.pos), n, s1, s2) && s.table == s2.table
    requires s.bad == (s2.bad || Peek(ts, s2.pos) != RPar)
    requires s.pos == if Peek(ts, s2.pos) == RPar then s2.pos + 1 else s2.pos
    ensures Outcome(Paren(ts, s0.pos), n, s0, s)
  {
    hide Expr, Layout, Root, Size;
    if Peek(ts, s0.pos) == LPar {
      CloseStep(Expr(ts, s1.pos), ts, RPar, n, s0, s2, s);
    }
  }

  lemma ElseStep(ts: seq<Token>, x: nat, s0: Snap, s1: Snap, s: Snap)
    requires Peek(ts, s0.pos) == KwElse && s1 == s0.(pos := s0.pos + 1) && Outcome(Stmt(ts, s1.pos), x, s1, s)
    ensures OptOutcome(ElseAt(ts, s0.pos), x, s0, s)
  {
    hide Stmt, OptLayout, OptRoot, Outcome;
    OptIs(Stmt(ts, s1.pos), x, s1, s);
  }

  lemma BareReturn(ts: seq<Token>, n: nat, s0: Snap, s1: Snap, s: Snap)
    requires Peek(ts, s0.pos) == KwReturn && Peek(ts, s1.pos) == Semi && s1.pos == s0.pos + 1
    requires s == s1.(pos := s1.pos + 1)
    requires |s0.table| <= MAX_NODES && s1.bad == (s0.bad || |s0.table| == MAX_NODES)
    requires |s0.table| < MAX_NODES ==> n == |s0.table| && s1.table == s0.table + [Blank(NReturn)]
    ensures Outcome(Stmt(ts, s0.pos), n, s0, s)
  {
    hide Expr, Layout, Root;
    ReturnRows(None, |s0.table|, -1);
    LeafStmt(Ok(Return(None), s.pos), Blank(NReturn), n, s0, s0.(pos := s.pos), s, true);
  }

  lemma ReturnStep(ts: seq<Token>, n: nat, e: nat, s0: Snap, s1: Snap, s2: Snap, s: Snap)
    requires Peek(ts, s0.pos) == KwReturn && s1.pos == s0.pos + 1 && Peek(ts, s1.pos) != Semi
    requires |s0.table| <= MAX_NODES && s1.bad == (s0.bad || |s0.table| == MAX_NODES)
    requires |s0.table| < MAX_NODES ==> n == |s0.table| && s1.table == s0.table + [Blank(NReturn)]
    requires Outcome(Expr(ts, s1.pos), e, s1, s2)
    requires n < |s2.table| ==> s.table == s2.table[n := s2.table[n].(c0 := e)]
    requires s.bad == (s2.bad || Peek(ts, s2.pos) != Semi)
    requires s.pos == if Peek(ts, s2.pos) == Semi then s2.pos + 1 else s2.pos
    ensures Outcome(Stmt(ts, s0.pos), n, s0, s)
  {
    hide Expr, Layout, Root, OptLayout, OptRoot, Outcome, OptOutcome, Size, OptSize;
    var x := Expr(ts, s1.pos);
    var o := if x.Ok? then OkOpt(Some(x.t), x.pos) else BadOpt;
    OptIs(x, e, s1, s2);
    var sx := Snap(s.pos, s2.table, s.bad);
    CloseOpt(ts, o, Semi, e, s1, s2, sx);
    if x.Ok? {
      ReturnRows(Some(x.t), |s0.table|, -1);
    }
    RowFirst(Stmt(ts, s0.pos), ClosedOpt(ts, o, Semi), Blank(NReturn), n, e, s0, s1, sx, s);
  }

  lemma JumpStep(ts: seq<Token>, n: nat, s0: Snap, s1: Snap, s: Snap)
    requires var t := Peek(ts, s0.pos);
      && (t == KwBreak || t == KwCont)
      && (|s0.table| < MAX_NODES ==> n == |s0.table| && s.table == s0.table + [Blank(if t == KwBreak then NBreak
          else NCont)])
    requires |s0.table| <= MAX_NODES && s1.table == s0.table && s.pos == s1.pos
    requires s.bad == (s1.bad || |s0.table| == MAX_NODES)
    requires s1.bad == (s0.bad || Peek(ts, s0.pos + 1) != Semi)
    requires s1.pos == if Peek(ts, s0.pos + 1) == Semi then s0.pos + 2 else s0.pos + 1
    ensures Outcome(Stmt(ts, s0.pos), n, s0, s)
  {
    hide Expr, Layout, Root;
    var t := Peek(ts, s0.pos);
    JumpRows(if t == KwBreak then Break else Cont, |s0.table|);
    LeafStmt(Stmt(ts, s0.pos), Blank(if t == KwBreak then NBreak
        else NCont), n, s0, s1, s, Peek(ts, s0.pos + 1) == Semi);
  }

  lemma ExprStmtStep(ts: seq<Token>, e: nat, n: nat, s0: Snap, s1: Snap, s2: Snap, s: Snap)
    requires Outcome(Expr(ts, s0.pos), e, s0, s1) && s2.table == s1.table
    requires s2.bad == (s1.bad || Peek(ts, s1.pos) != Semi)
    requires s2.pos == if Peek(ts, s1.pos) == Semi then s1.pos + 1 else s1.pos
    requires s.pos == s2.pos && |s2.table| <= MAX_NODES && s.bad == (s2.bad || |s2.table| == MAX_NODES)
    requires |s2.table| < MAX_NODES ==> n == |s2.table| && s.table == s2.table + [Blank(NExprStmt).(c0 := e)]
    ensures Outcome(ExprStmtAt(ts, s0.pos), n, s0, s)
  {
    hide Expr, Layout, Root, Outcome, Size;
    var x := Closed(Expr(ts, s0.pos), ts, Semi);
    CloseStep(Expr(ts, s0.pos), ts, Semi, e, s0, s1, s2);
    OutcomeDid(x, e, s0, s2);
    if x.Ok? {
      ExprStmtRows(x.t, |s0.table|, -1);
      ExprStmtSize(x.t);
    }
    RowLast(ExprStmtAt(ts, s0.pos), Of(x, |s0.table|), Blank(NExprStmt).(c0 := e), n, s0, s2, s);
  }

  lemma ExprStmtSize(e: Tree)
    ensures Size(ExprStmt(e)) == Size(e) + 1
  {
  }

  // ---- blocks ----

  lemma BlockFails(ts: seq<Token>, d: Trees, n: nat, last: int, s0: Snap, s: Snap)
    requires BlockOpen(ts, d, n, last, s0, s) && s.bad
    ensures Outcome(BlockAt(ts, s0.pos), n, s0, s)
  {
    hide BlockAt, Stmts, Size;
  }

  lemma StmtMoves(e: Parse, ts: seq<Token>, s0: Snap, s: Snap, a: nat)
    requires e == Stmt(ts, s0.pos) && Outcome(e, a, s0, s) && !s.bad
    ensures Left(ts, s.pos) < Left(ts, s0.pos)
  {
    hide Stmt, Layout, Root, Size;
  }

  lemma StmtsStep(ts: seq<Token>, p: nat, d: Trees)
    requires Peek(ts, p) != RBrace && Peek(ts, p) != Eof
    ensures var e, all := Stmt(ts, p), Prepend(d, Stmts(ts, p));
      && (e.Bad? ==> all.BadList?)
      && (e.Ok? ==> all == Prepend(Snoc(d, e.t), Stmts(ts, e.pos)))
      && (e.Ok? && all.OkList? ==> ListSize(all.ts) >= ListSize(d) + Size(e.t))
  {
    hide Size, Stmt;
    var e := Stmt(ts, p);
    if e.Ok? {
      var a := Stmts(ts, e.pos);
      if a.OkList? {
        ConcatSnoc(d, e.t, a.ts);
        ConcatSize(d, Cons(e.t, a.ts));
      }
    }
  }

  /** Inside the loop over the statements of a block, `d` being those so far. */
  ghost predicate BlockOpen(ts: seq<Token>, d: Trees, n: nat, last: int, s0: Snap, s: Snap) {
    && (!s.bad ==>
          && !s0.bad && n == |s0.table| && Listed(s0.table, Blank(NBlock), d, last, s.table)
          && Stmts(ts, s0.pos) == Prepend(d, Stmts(ts, s.pos)))
    && (s.bad && !s0.bad ==> !Fits(BlockAt(ts, s0.pos), |s0.table|))
  }

  lemma BlockStart(ts: seq<Token>, n: nat, s0: Snap, s: Snap)
    requires |s0.table| <= MAX_NODES && s.bad == (s0.bad || |s0.table| == MAX_NODES) && s.pos == s0.pos
    requires |s0.table| < MAX_NODES ==> n == |s0.table| && s.table == s0.table + [Blank(NBlock)]
    ensures BlockOpen(ts, Nil, n, -1, s0, s)
  {
    hide Stmts, Listed;
    ListedNone(s0.table, Blank(NBlock));
  }

  lemma BlockSize(ss: Trees)
    ensures Size(Block(ss)) == 1 + ListSize(ss)
  {
  }

  lemma BlockStep(ts: seq<Token>, d: Trees, e: Parse, n: nat, last: int, a: nat, s0: Snap, s1: Snap, s2: Snap, s: Snap)
    requires BlockOpen(ts, d, n, last, s0, s1) && Peek(ts, s1.pos) != RBrace && Peek(ts, s1.pos) != Eof
    requires e == Stmt(ts, s1.pos) && Outcome(e, a, s1, s2)
    requires s == if (if last < 0 then n else last) < |s2.table| then s2.(table := Chained(s2.table, n, last, a))
        else s2
    ensures BlockOpen(ts, Snoc(d, if e.Ok? then e.t else Break), n, a, s0, s)
  {
    hide Layout, Size, Root, Stmt, Stmts, Listed, Chained, Snoc, Prepend, ListSize;
    StmtsStep(ts, s1.pos, d);
    if e.Ok? && !s.bad {
      ListedMore(s0.table, Blank(NBlock), d, last, s1.table, e.t, a, s2.table);
    }
    var all := Stmts(ts, s0.pos);
    if s.bad && !s1.bad && all.OkList? {
      ListedSize(s0.table, Blank(NBlock), d, last, s1.table);
      BlockSize(all.ts);
    }
  }

  lemma BlockEnd(ts: seq<Token>, d: Trees, n: nat, last: int, s0: Snap, s1: Snap, s: Snap)
    requires BlockOpen(ts, d, n, last, s0, s1) && |s1.table| <= MAX_NODES
    requires Peek(ts, s1.pos) == RBrace || Peek(ts, s1.pos) == Eof || s1.bad
    requires s.bad == (s1.bad || Peek(ts, s1.pos) != RBrace)
    requires s.pos == (if Peek(ts, s1.pos) == RBrace then s1.pos + 1 else s1.pos)
    requires s.table == s1.table
    ensures Outcome(BlockAt(ts, s0.pos), n, s0, s)
  {
    hide Layout, Size, Root, Stmt, ListSize, ListLayout, FirstRoot, LastRoot;
    if !s1.bad {
      ConcatNil(d);
      BlockRows(d, |s0.table|, -1);
      ListedSize(s0.table, Blank(NBlock), d, last, s1.table);
    }
  }

  // ---- functions and programs ----

  /** An entry of the function table: `body` is the row of the function's block. */
  datatype FuncRow = FuncRow(name: string, params: seq<string>, body: nat)

  /** From `s0` to `s` and from `fs0` to `fs`, one function has been entered, or had to fail. */
  ghost predicate FuncOutcome(r: ParseFunc, s0: Snap, s: Snap, fs0: seq<FuncRow>, fs: seq<FuncRow>) {
    && (!s.bad <==> !s0.bad && r.OkFunc? && |fs0| < MAX_FUNCS && |s0.table| + Size(r.f.body) <= MAX_NODES)
    && (!s.bad ==>
          && s.pos == r.pos && s.table == s0.table + Layout(r.f.body, |s0.table|, -1)
          && fs == fs0 + [FuncRow(r.f.name, r.f.params, Root(r.f.body, |s0.table|))])
  }

  /** Inside the loop over parameters. */
  ghost predicate ParamsOpen(ts: seq<Token>, names: seq<string>, s0: Snap, s: Snap, more: bool) {
    && s.table == s0.table && |names| <= MAX_PARAMS
    && (!s.bad ==> !s0.bad && Params(ts, s0.pos, []) == if more then Params(ts, s.pos, names)
        else OkNames(names, s.pos))
    && (s.bad && !s0.bad ==> Params(ts, s0.pos, []).BadNames?)
  }

  lemma NoName(ts: seq<Token>, p: nat)
    requires !Peek(ts, p).TIdent?
    ensures FuncAt(ts, p).BadFunc?
  {
  }

  lemma FuncStep(ts: seq<Token>, names: seq<string>, body: nat, s0: Snap, s1: Snap, s2: Snap, s3: Snap, s: Snap,
                 fs0: seq<FuncRow>, fs: seq<FuncRow>, name: string)
    requires Peek(ts, s0.pos) == TIdent(name) && |fs0| < MAX_FUNCS
    requires s1.table == s0.table && s1.bad == (s0.bad || Peek(ts, s0.pos + 1) != LPar)
    requires (!s1.bad ==> s1.pos == s0.pos + 2)
    requires ParamsOpen(ts, names, s1, s2, false)
    requires s3.table == s2.table && (!s3.bad ==> s3.pos == s2.pos + 2)
    requires s3.bad == (s2.bad || Peek(ts, s2.pos) != RPar || Peek(ts, s2.pos + 1) != LBrace)
    requires Outcome(BlockAt(ts, s3.pos), body, s3, s) && fs == fs0 + [FuncRow(name, names, body)]
    ensures FuncOutcome(FuncAt(ts, s0.pos), s0, s, fs0, fs)
  {
    hide BlockAt, Params, Layout, Root;
  }

  lemma FuncRefused(ts: seq<Token>, s0: Snap, s: Snap, fs0: seq<FuncRow>, fs: seq<FuncRow>)
    requires s.bad && (|fs0| >= MAX_FUNCS || FuncAt(ts, s0.pos).BadFunc?)
    ensures FuncOutcome(FuncAt(ts, s0.pos), s0, s, fs0, fs)
  {
    hide FuncAt;
  }

  /** The rows of a program: the bodies of its functions one behind the other. */
  function ProgramRows(fs: seq<Func>): (ns: seq<Node>) {
    if fs == [] then []
    else
      var rows := ProgramRows(fs[..|fs| - 1]);
      rows + Layout(fs[|fs| - 1].body, |rows|, -1)
  }

  /** Where the body of function `k` starts. */
  function BodyAt(fs: seq<Func>, k: nat): nat
    requires k <= |fs|
  {
    |ProgramRows(fs[..k])|
  }

  /** The function table of a program. */
  function FuncTable(fs: seq<Func>): (rows: seq<FuncRow>)
    ensures |rows| == |fs|
  {
    seq(|fs|, k requires 0 <= k < |fs| => FuncRow(fs[k].name, fs[k].params, Root(fs[k].body, BodyAt(fs, k))))
  }

  lemma OneMoreFunc(fs: seq<Func>, f: Func)
    ensures ProgramRows(fs + [f]) == ProgramRows(fs) + Layout(f.body, |ProgramRows(fs)|, -1)
    ensures FuncTable(fs + [f]) == FuncTable(fs) + [FuncRow(f.name, f.params, Root(f.body, |ProgramRows(fs)|))]
  {
    hide Layout, Root;
    assert (fs + [f])[..|fs|] == fs;
    forall k | 0 <= k < |fs|
      ensures (fs + [f])[..k] == fs[..k]
    {
    }
    assert fs == fs[..|fs|];
  }

  lemma {:induction false} ProgramGrows(ts: seq<Token>, p: nat, fs: seq<Func>)
    ensures var r := Program(ts, p, fs); r.OkProgram? ==> |ProgramRows(r.funcs)| >= |ProgramRows(fs)|
    decreases Left(ts, p)
  {
    hide FuncAt, ProgramRows;
    if (Peek(ts, p) == KwInt || Peek(ts, p) == KwVoid) && |fs| < MAX_FUNCS {
      var f := FuncAt(ts, p + 1);
      if f.OkFunc? {
        ProgramGrows(ts, f.pos, fs + [f.f]);
        OneMoreFunc(fs, f.f);
      }
    }
  }

  /** Inside the loop over functions, `fs` being those so far. */
  ghost predicate ProgramOpen(ts: seq<Token>, fs: seq<Func>, rows: seq<FuncRow>, s: Snap) {
    && (!s.bad ==> s.table == ProgramRows(fs) && rows == FuncTable(fs) && Program(ts, 0, []) == Program(ts, s.pos, fs))
    && (s.bad ==> !ProgramFits(Program(ts, 0, [])))
  }

  predicate ProgramFits(r: ParseProgram) {
    r.OkProgram? && |ProgramRows(r.funcs)| <= 512
  }

  lemma ProgramStep(ts: seq<Token>, fs: seq<Func>, rows: seq<FuncRow>, s0: Snap, s1: Snap, s: Snap, after: seq<FuncRow>)
    requires ProgramOpen(ts, fs, rows, s0) && !s0.bad && (Peek(ts, s0.pos) == KwInt || Peek(ts, s0.pos) == KwVoid)
    requires s1 == s0.(pos := s0.pos + 1) && FuncOutcome(FuncAt(ts, s1.pos), s1, s, rows, after)
    ensures var f := FuncAt(ts, s1.pos); ProgramOpen(ts, if f.OkFunc? then fs + [f.f] else fs, after, s)
  {
    hide FuncAt, ProgramRows, FuncTable, Layout, Root, Size;
    var f := FuncAt(ts, s1.pos);
    if f.OkFunc? {
      OneMoreFunc(fs, f.f);
      ProgramGrows(ts, f.pos, fs + [f.f]);
    }
  }

  lemma ProgramStart(ts: seq<Token>)
    ensures ProgramOpen(ts, [], [], Snap(0, [], false))
  {
  }

  lemma ProgramRefused(ts: seq<Token>, fs: seq<Func>, rows: seq<FuncRow>, s0: Snap, s: Snap)
    requires ProgramOpen(ts, fs, rows, s0) && !s0.bad && s.bad
    requires Peek(ts, s0.pos) != KwInt && Peek(ts, s0.pos) != KwVoid && Peek(ts, s0.pos) != Eof
    ensures ProgramOpen(ts, fs, rows, s)
  {
    hide FuncAt, ProgramRows;
  }

  lemma ProgramEnd(ts: seq<Token>, fs: seq<Func>, rows: seq<FuncRow>, s: Snap)
    requires ProgramOpen(ts, fs, rows, s) && (Peek(ts, s.pos) == Eof || s.bad) && |s.table| <= MAX_NODES
    ensures !s.bad <==> ProgramFits(Program(ts, 0, []))
    ensures !s.bad ==> Program(ts, 0, []) == OkProgram(fs) && s.table == ProgramRows(fs) && rows == FuncTable(fs)
  {
    hide FuncAt, ProgramRows, FuncTable;
  }
}
