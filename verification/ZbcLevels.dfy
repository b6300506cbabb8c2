/** How operators of the ZBC language bind, from the order of C written out level by level. */
module ZbcLevels {
  import opened ZbcSyntax
  import opened ZbcGrammar

  /** The binary operators of C, those that bind loosest first. */
  const LEVELS: seq<set<BinOp>> := [{Or}, {And}, {BitOr}, {BitXor}, {BitAnd}, {Eq, Neq}, {Lt, Gt, Le, Ge}, {Shl, Shr},
    {Plus, Minus}, {Star, Slash, Pct}]

  /** Every operator has exactly one level. */
  lemma OneLevel(op: BinOp)
    ensures exists i | 0 <= i < |LEVELS| :: op in LEVELS[i]
    ensures forall i, j | 0 <= i < |LEVELS| && 0 <= j < |LEVELS| && op in LEVELS[i] && op in LEVELS[j] :: i == j
  {
    assert op in LEVELS[BinPrec(op) - 1];
    forall i | 0 <= i < |LEVELS| && op in LEVELS[i]
      ensures i == BinPrec(op) - 1
    {
      LevelIs(op, i);
    }
  }

  lemma LevelIs(op: BinOp, i: nat)
    requires i < |LEVELS|
    ensures op in LEVELS[i] <==> BinPrec(op) == i + 1
  {
  }

  /** `a` stands on a level in front of that of `b`. */
  ghost predicate Looser(a: BinOp, b: BinOp) {
    exists i, j | 0 <= i < j < |LEVELS| :: a in LEVELS[i] && b in LEVELS[j]
  }

  lemma LooserIs(a: BinOp, b: BinOp)
    ensures Looser(a, b) <==> BinPrec(a) < BinPrec(b)
  {
    hide BinPrec;
    if BinPrec(a) < BinPrec(b) {
      var i, j := BinPrec(a) - 1, BinPrec(b) - 1;
      LevelIs(a, i);
      LevelIs(b, j);
    }
    if Looser(a, b) {
      var i, j :| 0 <= i < j < |LEVELS| && a in LEVELS[i] && b in LEVELS[j];
      LevelIs(a, i);
      LevelIs(b, j);
    }
  }

  /** An expression without its parentheses: operators and operands from left to right. */
  function Flat(t: Tree): seq<Token>
    requires IsExpr(t)
  {
    if t.Bin? then Flat(t.l) + [TOp(t.op)] + Flat(t.r) else PrintAt(t, 11)
  }

  /** Nothing on the left binds looser than the operator, everything on the right binds tighter. */
  ghost predicate Ranked(t: Tree) {
    t.Bin? ==>
      && Ranked(t.l) && (t.l.Bin? ==> !Looser(t.l.op, t.op))
      && Ranked(t.r) && (t.r.Bin? ==> Looser(t.op, t.r.op))
  }

  lemma {:induction false} FlatIsPrint(t: Tree, p: nat)
    requires IsExpr(t) && Ranked(t) && 1 <= p <= 11 && (t.Bin? ==> p <= BinPrec(t.op))
    ensures PrintAt(t, p) == Flat(t)
  {
    hide Looser, BinPrec;
    if t.Bin? {
      if t.l.Bin? { LooserIs(t.l.op, t.op); }
      if t.r.Bin? { LooserIs(t.op, t.r.op); }
      FlatIsPrint(t.l, BinPrec(t.op));
      FlatIsPrint(t.r, BinPrec(t.op) + 1);
    }
  }

  /** Any row of operands and operators, written without parentheses, is parsed to the tree that the levels say. */
  lemma RowParses(ts: seq<Token>, p: nat, t: Tree)
    requires IsExpr(t) && Ranked(t) && At(ts, p, Flat(t))
    requires var f := Peek(ts, p + |Flat(t)|); f != LPar && !f.TOp? && !f.TAssign?
    ensures Expr(ts, p) == Ok(t, p + |Flat(t)|)
  {
    hide Looser, BinPrec, Binop, Ranked, At, PrintAt, Flat;
    FlatIsPrint(t, 1);
    RoundLevel(ts, p, t, 1);
  }

  /** Two operators in a row: the one of the tighter level takes the operand between them, the left one when they are
      of the same level. */
  lemma TwoOperators(ts: seq<Token>, p: nat, x: Tree, a: BinOp, y: Tree, b: BinOp, z: Tree, i: nat, j: nat)
    requires IsExpr(x) && IsExpr(y) && IsExpr(z) && !x.Bin? && !y.Bin? && !z.Bin?
    requires i < |LEVELS| && a in LEVELS[i] && j < |LEVELS| && b in LEVELS[j]
    requires At(ts, p, Flat(x) + [TOp(a)] + Flat(y) + [TOp(b)] + Flat(z))
    requires var f := Peek(ts, p + |Flat(x)| + 1 + |Flat(y)| + 1 + |Flat(z)|); f != LPar && !f.TOp? && !f.TAssign?
    ensures Expr(ts, p) == Ok(if i < j then Bin(a, x, Bin(b, y, z)) else Bin(b, Bin(a, x, y), z),
                              p + |Flat(x)| + 1 + |Flat(y)| + 1 + |Flat(z)|)
  {
    hide Expr, BinPrec, Looser, PrintAt;
    LevelIs(a, i);
    LevelIs(b, j);
    LooserIs(a, b);
    assert Ranked(x) && Ranked(y) && Ranked(z);
    hide LEVELS;
    if i < j {
      var r := Bin(b, y, z);
      assert Ranked(r) && Ranked(Bin(a, x, r));
      Rightmost(a, x, b, y, z);
      RowParses(ts, p, Bin(a, x, r));
    } else {
      var l := Bin(a, x, y);
      assert Ranked(l) && Ranked(Bin(b, l, z));
      RowParses(ts, p, Bin(b, l, z));
    }
  }

  lemma Rightmost(a: BinOp, x: Tree, b: BinOp, y: Tree, z: Tree)
    requires IsExpr(x) && IsExpr(y) && IsExpr(z)
    ensures Flat(Bin(a, x, Bin(b, y, z))) == Flat(x) + [TOp(a)] + Flat(y) + [TOp(b)] + Flat(z)
  {
    hide PrintAt;
    assert Flat(Bin(b, y, z)) == Flat(y) + [TOp(b)] + Flat(z);
  }
}
