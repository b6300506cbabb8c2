/** Tokens and syntax trees of the ZBC language, and the printer that uses as few parentheses as it can. */
module ZbcSyntax {

  datatype BinOp = Or | And | BitOr | BitXor | BitAnd | Eq | Neq | Lt | Gt | Le | Ge | Shl | Shr
    | Plus | Minus | Star | Slash | Pct
  datatype UnOp = Neg | Not
  datatype AssignOp = Set | AddTo | SubFrom | MulBy | DivBy

  datatype Token = Eof | TInt(v: int) | TIdent(name: string) | TStr(off: int)
    | LPar | RPar | LBrace | RBrace | Semi | Comma
    | TOp(op: BinOp) | TAssign(aop: AssignOp) | TNot
    | KwInt | KwVoid | KwIf | KwElse | KwWhile | KwReturn | KwBreak | KwCont | KwFor

  /** Expressions and statements share one node type, as in the interpreter's table. */
  datatype Tree =
    | Num(v: int)
    | Str(off: int)
    | Var(name: string)
    | Assign(aop: AssignOp, name: string, rhs: Tree)
    | Bin(op: BinOp, l: Tree, r: Tree)
    | Un(uop: UnOp, e: Tree)
    | Call(name: string, args: Trees)
    | Decl(name: string, init: Opt)
    | If(cond: Tree, yes: Tree, no: Opt)
    | While(cond: Tree, body: Tree)
    | For(start: Opt, test: Opt, post: Opt, body: Tree)
    | Return(value: Opt)
    | Break
    | Cont
    | Block(body_: Trees)
    | ExprStmt(e: Tree)
  datatype Trees = Nil | Cons(head: Tree, tail: Trees)
  datatype Opt = None | Some(t: Tree)

  function Concat(a: Trees, b: Trees): Trees {
    if a.Nil? then b else Cons(a.head, Concat(a.tail, b))
  }

  function Snoc(a: Trees, t: Tree): Trees { Concat(a, Cons(t, Nil)) }

  lemma {:induction false} ConcatNil(a: Trees)
    ensures Concat(a, Nil) == a
  {
    if a.Cons? { ConcatNil(a.tail); }
  }

  lemma {:induction false} ConcatSnoc(a: Trees, t: Tree, b: Trees)
    ensures Concat(Snoc(a, t), b) == Concat(a, Cons(t, b))
  {
    if a.Cons? { ConcatSnoc(a.tail, t, b); }
  }

  datatype Func = Func(name: string, params: seq<string>, body: Tree)

  predicate IsExpr(t: Tree) {
    match t
    case Num(_) => true
    case Str(_) => true
    case Var(_) => true
    case Assign(_, _, rhs) => IsExpr(rhs)
    case Bin(_, l, r) => IsExpr(l) && IsExpr(r)
    case Un(_, e) => IsExpr(e)
    case Call(_, args) => AreExprs(args)
    case _ => false
  }

  predicate AreExprs(ts: Trees) {
    ts.Cons? ==> IsExpr(ts.head) && AreExprs(ts.tail)
  }

  predicate OptExpr(o: Opt) { o.Some? ==> IsExpr(o.t) }

  /** Binding strength of a binary operator, 1 to 10. */
  function BinPrec(op: BinOp): (p: nat)
    ensures 1 <= p <= 10
  {
    match op
    case Or => 1
    case And => 2
    case BitOr => 3
    case BitXor => 4
    case BitAnd => 5
    case Eq => 6
    case Neq => 6
    case Lt => 7
    case Gt => 7
    case Le => 7
    case Ge => 7
    case Shl => 8
    case Shr => 8
    case Plus => 9
    case Minus => 9
    case Star => 10
    case Slash => 10
    case Pct => 10
  }

  /** 0 for a token that is no binary operator. */
  function TokPrec(t: Token): (p: nat)
    ensures p <= 10
  {
    if t.TOp? then BinPrec(t.op) else 0
  }

  // ---- printing ----

  /** How tightly the outermost construct of an expression binds. */
  function Prec(t: Tree): nat {
    match t
    case Assign(_, _, _) => 0
    case Bin(op, _, _) => BinPrec(op)
    case _ => 11
  }

  /** Parentheses only where precedence or left-associativity asks for them; assignment is right-associative. */
  function Print(t: Tree): seq<Token>
    requires IsExpr(t)
    decreases t, 0
  {
    match t
    case Num(v) => [TInt(v)]
    case Str(off) => [TStr(off)]
    case Var(n) => [TIdent(n)]
    case Assign(op, n, rhs) => [TIdent(n), TAssign(op)] + PrintAt(rhs, 0)
    case Bin(op, l, r) => PrintAt(l, BinPrec(op)) + [TOp(op)] + PrintAt(r, BinPrec(op) + 1)
    case Un(op, e) => [if op.Neg? then TOp(Minus) else TNot] + PrintAt(e, 11)
    case Call(n, args) => [TIdent(n), LPar] + PrintArgs(args) + [RPar]
  }

  function PrintAt(t: Tree, p: nat): seq<Token>
    requires IsExpr(t)
    decreases t, 1
  {
    if Prec(t) < p then [LPar] + Print(t) + [RPar] else Print(t)
  }

  function PrintArgs(ts: Trees): seq<Token>
    requires AreExprs(ts)
  {
    match ts
    case Nil => []
    case Cons(t, Nil) => PrintAt(t, 0)
    case Cons(t, rest) => PrintAt(t, 0) + [Comma] + PrintArgs(rest)
  }
}
