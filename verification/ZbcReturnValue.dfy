/** Programs that return the value of one expression: from their tokens to the number. */
module ZbcReturnValues {
  import opened ZbcSyntax
  import opened ZbcGrammar
  import opened ZbcNodes
  import opened ZbcStmtSteps
  import opened ZbcPrinter
  import opened ZbcLevels
  import opened ZbcEval
  import opened ZbcQuirks

  /** Expressions of numbers and operators. */
  predicate IsSum(t: Tree) {
    match t
    case Num(_) => true
    case Bin(_, l, r) => IsSum(l) && IsSum(r)
    case Un(_, e) => IsSum(e)
    case _ => false
  }

  function Worth(t: Tree): int
    requires IsSum(t)
  {
    match t
    case Num(v) => v
    case Bin(op, l, r) => BinValue(op, Worth(l), Worth(r))
    case Un(op, e) => UnValue(op, Worth(e))
  }

  lemma {:induction false} SumIsExpr(t: Tree)
    requires IsSum(t)
    ensures IsExpr(t)
  {
    match t
    case Num(_) =>
    case Bin(_, l, r) => SumIsExpr(l); SumIsExpr(r);
    case Un(_, e) => SumIsExpr(e);
  }

  /** The walk finds the value and changes nothing; operands it does not look at would not change the value. */
  lemma {:induction false} EvalIsWorth(fs: seq<Func>, t: Tree, st: State, fuel: nat)
    requires IsSum(t) && !st.err
    ensures Eval(fs, t, st, fuel) == Walk(st, Worth(t))
  {
    hide BinValue, UnValue;
    match t
    case Num(_) =>
    case Bin(op, l, r) =>
      EvalIsWorth(fs, l, st, fuel);
      EvalIsWorth(fs, r, st, fuel);
      Shortcut(op, Worth(l), Worth(r));
    case Un(_, e) => EvalIsWorth(fs, e, st, fuel);
  }

  lemma Shortcut(op: BinOp, a: int, b: int)
    ensures op == And && a == 0 ==> BinValue(op, a, b) == 0
    ensures op == Or && a != 0 ==> BinValue(op, a, b) == 1
  {
  }

  /** `int main() { return t; }` without parentheses. */
  function ReturnTokens(t: Tree): seq<Token>
    requires IsExpr(t)
  {
    [KwInt, TIdent("main"), LPar, RPar, LBrace, KwReturn] + Flat(t) + [Semi, RBrace]
  }

  function ReturnBody(t: Tree): Tree { Block(Cons(Return(Some(t)), Nil)) }

  /** Where the tokens stand. */
  lemma ReturnPlaces(t: Tree)
    requires IsExpr(t)
    ensures var ts, q := ReturnTokens(t), 6 + |Flat(t)|;
      && Peek(ts, 0) == KwInt && Peek(ts, 1) == TIdent("main") && Peek(ts, 2) == LPar && Peek(ts, 3) == RPar
      && Peek(ts, 4) == LBrace && Peek(ts, 5) == KwReturn && At(ts, 6, Flat(t))
      && Peek(ts, q) == Semi && Peek(ts, q + 1) == RBrace && Peek(ts, q + 2) == Eof
  {
    hide Flat;
  }

  lemma ReturnParses(t: Tree)
    requires IsExpr(t) && Ranked(t)
    ensures Program(ReturnTokens(t), 0, []) == OkProgram([Func("main", [], ReturnBody(t))])
  {
    hide ReturnTokens, At, Flat, Ranked, Stmt, Stmts, BlockAt, Expr;
    var ts, q := ReturnTokens(t), 6 + |Flat(t)|;
    ReturnPlaces(t);
    RowParses(ts, 6, t);
    NoEmptyExpr(ts, 6);
    OneReturn(ts, 5, t, q);
    assert FuncAt(ts, 1) == OkFunc(Func("main", [], ReturnBody(t)), q + 2);
  }

  lemma OneReturn(ts: seq<Token>, p: nat, t: Tree, q: nat)
    requires Peek(ts, p) == KwReturn && Peek(ts, p + 1) != Semi && Expr(ts, p + 1) == Ok(t, q) && Peek(ts, q) == Semi
    requires Peek(ts, q + 1) == RBrace
    ensures BlockAt(ts, p) == Ok(ReturnBody(t), q + 2)
  {
    hide Expr;
    assert Stmt(ts, p) == Ok(Return(Some(t)), q + 1);
    assert Stmts(ts, q + 1) == OkList(Nil, q + 1);
    assert Stmts(ts, p) == OkList(Cons(Return(Some(t)), Nil), q + 1);
  }

  lemma NoEmptyExpr(ts: seq<Token>, p: nat)
    requires Expr(ts, p).Ok?
    ensures Peek(ts, p) != Semi
  {
    assert Binop(ts, p, 1).Ok? && Primary(ts, p).Ok?;
  }

  lemma ReturnRuns(t: Tree, keys: seq<int>, fuel: nat)
    requires IsSum(t) && fuel > 0
    ensures var w := Run([Func("main", [], ReturnBody(t))], keys, fuel);
      w.Walk? && w.v == Worth(t) && w.st.out == [] && !w.st.err
  {
    hide Worth, Eval;
    var f := Func("main", [], ReturnBody(t));
    var fs, st := [f], Entered(f, [], Initial(keys));
    EvalIsWorth(fs, t, st, fuel - 1);
    ReturnStep(fs, t, st, fuel - 1);
    BodyStep(fs, Return(Some(t)), st, fuel - 1);
    assert FindFunc(fs, "main", 0) == 0;
  }

  lemma ReturnStep(fs: seq<Func>, t: Tree, st: State, fuel: nat)
    requires !st.err && Eval(fs, t, st, fuel).Walk?
    ensures var a := Eval(fs, t, st, fuel);
      Eval(fs, Return(Some(t)), st, fuel) == Walk(a.st.(rv := a.v, ret := true), a.v)
  {
  }

  lemma BodyStep(fs: seq<Func>, s: Tree, st: State, fuel: nat)
    requires !st.ret && !st.brk && !st.cont && !st.err && Eval(fs, s, st, fuel).Walk?
    ensures Eval(fs, Block(Cons(s, Nil)), st, fuel) == Walk(Eval(fs, s, st, fuel).st, 0)
  {
    var a := Eval(fs, s, st, fuel);
    assert EvalBlock(fs, Nil, a.st, fuel) == Walk(a.st, 0);
    assert EvalBlock(fs, Cons(s, Nil), st, fuel) == Walk(a.st, 0);
  }

  /** The rows of the program in the parser's table: those of the expression and two more. */
  lemma ReturnFits(t: Tree)
    ensures |ProgramRows([Func("main", [], ReturnBody(t))])| == Size(t) + 2
  {
    hide Layout;
    var fs := [Func("main", [], ReturnBody(t))];
    assert ProgramRows(fs[..0]) == [];
    assert Size(Return(Some(t))) == 1 + Size(t);
    assert ListSize(Cons(Return(Some(t)), Nil)) == 1 + Size(t);
  }
}
