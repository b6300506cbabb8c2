/** What the recursive-descent parser accepts, as functions on the token list; `Bad` stands for the first error. */
module ZbcGrammar {
  import opened ZbcSyntax

  datatype Parse = Ok(t: Tree, pos: nat) | Bad
  datatype ParseList = OkList(ts: Trees, pos: nat) | BadList

  function Peek(ts: seq<Token>, p: nat): Token {
    if p < |ts| then ts[p] else Eof
  }

  function Left(ts: seq<Token>, p: nat): nat {
    if p < |ts| then |ts| - p else 0
  }

  /** A parse step hands back a position behind at least one token. */
  predicate Moves(r: Parse, ts: seq<Token>, p: nat) {
    r.Ok? ==> p < r.pos <= |ts|
  }

  /** `r`, provided the token behind it is `t`, which is consumed. */
  function Closed(r: Parse, ts: seq<Token>, t: Token): Parse {
    if r.Ok? && Peek(ts, r.pos) == t then Ok(r.t, r.pos + 1) else Bad
  }

  function Primary(ts: seq<Token>, p: nat): (r: Parse)
    ensures Moves(r, ts, p)
    decreases Left(ts, p), 1
  {
    match Peek(ts, p)
    case TInt(v) => Ok(Num(v), p + 1)
    case TStr(off) => Ok(Str(off), p + 1)
    case TIdent(n) =>
      if Peek(ts, p + 1) != LPar then Ok(Var(n), p + 1) else CallAt(ts, p + 2, n)
    case LPar => Closed(Expr(ts, p + 1), ts, RPar)
    case TOp(Minus) => var e := Primary(ts, p + 1); if e.Ok? then Ok(Un(Neg, e.t), e.pos) else Bad
    case TNot => var e := Primary(ts, p + 1); if e.Ok? then Ok(Un(Not, e.t), e.pos) else Bad
    case _ => Bad
  }

  lemma UnaryParse(ts: seq<Token>, p: nat)
    requires Peek(ts, p) == TOp(Minus) || Peek(ts, p) == TNot
    ensures Primary(ts, p) ==
      (var e := Primary(ts, p + 1);
       if e.Ok? then Ok(Un(if Peek(ts, p) == TNot then Not else Neg, e.t), e.pos) else Bad)
  {
    hide Expr, CallAt;
  }

  /** The rest of a call, behind its opening parenthesis. */
  function CallAt(ts: seq<Token>, p: nat, n: string): (r: Parse)
    ensures Moves(r, ts, p)
    decreases Left(ts, p), 5
  {
    var a := Args(ts, p);
    if a.OkList? && Peek(ts, a.pos) == RPar then Ok(Call(n, a.ts), a.pos + 1) else Bad
  }

  /** Call arguments up to the closing parenthesis, which is left; a comma may stand before it. */
  function Args(ts: seq<Token>, p: nat): (r: ParseList)
    ensures r.OkList? ==> p <= r.pos && (p <= |ts| ==> r.pos <= |ts|)
    decreases Left(ts, p), 4
  {
    if Peek(ts, p) == RPar then OkList(Nil, p)
    else
      var e := Expr(ts, p);
      if e.Bad? then BadList
      else if Peek(ts, e.pos) != Comma then OkList(Cons(e.t, Nil), e.pos)
      else
        var rest := Args(ts, e.pos + 1);
        if rest.OkList? then OkList(Cons(e.t, rest.ts), rest.pos) else BadList
  }

  /** An operand, then operators of precedence `prec` and above. */
  function Binop(ts: seq<Token>, p: nat, prec: nat): (r: Parse)
    ensures Moves(r, ts, p)
    decreases Left(ts, p), 2
  {
    var l := Primary(ts, p);
    if l.Bad? then Bad else BinLoop(ts, l.pos, prec, l.t)
  }

  function BinLoop(ts: seq<Token>, p: nat, prec: nat, lhs: Tree): (r: Parse)
    ensures r.Ok? ==> p <= r.pos && (p <= |ts| ==> r.pos <= |ts|)
    decreases Left(ts, p), 2
  {
    var t := Peek(ts, p);
    if t.TOp? && BinPrec(t.op) >= prec then
      var rhs := Binop(ts, p + 1, BinPrec(t.op) + 1);
      if rhs.Bad? then Bad else BinLoop(ts, rhs.pos, prec, Bin(t.op, lhs, rhs.t))
    else Ok(lhs, p)
  }

  function Expr(ts: seq<Token>, p: nat): (r: Parse)
    ensures Moves(r, ts, p)
    decreases Left(ts, p), 3
  {
    var l := Binop(ts, p, 1);
    if l.Bad? then Bad
    else
      var t := Peek(ts, l.pos);
      if !t.TAssign? then l
      else if !l.t.Var? then Bad
      else
        var rhs := Expr(ts, l.pos + 1);
        if rhs.Ok? then Ok(Assign(t.aop, l.t.name, rhs.t), rhs.pos) else Bad
  }

  // ---- statements ----

  datatype ParseOpt = OkOpt(o: Opt, pos: nat) | BadOpt

  /** An expression, or nothing before `stop`. */
  function Optional(ts: seq<Token>, p: nat, stop: Token): (r: ParseOpt)
    ensures r.OkOpt? ==> p <= r.pos && (p <= |ts| ==> r.pos <= |ts|)
  {
    if Peek(ts, p) == stop then OkOpt(None, p)
    else
      var e := Expr(ts, p);
      if e.Ok? then OkOpt(Some(e.t), e.pos) else BadOpt
  }

  /** The name and initial value of a declaration, behind `int`. */
  function InitAt(ts: seq<Token>, p: nat): (r: ParseOpt)
    ensures r.OkOpt? ==> p < r.pos <= |ts| && Peek(ts, p).TIdent?
  {
    if !Peek(ts, p).TIdent? then BadOpt
    else if Peek(ts, p + 1) != TAssign(Set) then OkOpt(None, p + 1)
    else
      var e := Expr(ts, p + 2);
      if e.Ok? then OkOpt(Some(e.t), e.pos) else BadOpt
  }

  function DeclAt(ts: seq<Token>, p: nat): (r: Parse)
    ensures Moves(r, ts, p)
  {
    var i := InitAt(ts, p);
    if i.OkOpt? then Ok(Decl(Peek(ts, p).name, i.o), i.pos) else Bad
  }

  function Paren(ts: seq<Token>, p: nat): (r: Parse)
    ensures Moves(r, ts, p)
  {
    if Peek(ts, p) == LPar then Closed(Expr(ts, p + 1), ts, RPar) else Bad
  }

  function ForStart(ts: seq<Token>, p: nat): (r: ParseOpt)
    ensures r.OkOpt? ==> p <= r.pos && (p <= |ts| ==> r.pos <= |ts|)
  {
    if Peek(ts, p) == KwInt then
      var d := DeclAt(ts, p + 1);
      if d.Ok? then OkOpt(Some(d.t), d.pos) else BadOpt
    else Optional(ts, p, Semi)
  }

  /** `start ; test ; post )` behind the opening parenthesis: a for loop still without its body. */
  datatype ParseFor = OkFor(start: Opt, test: Opt, post: Opt, pos: nat) | BadFor

  function ForHead(ts: seq<Token>, p: nat): (r: ParseFor)
    ensures r.OkFor? ==> p < r.pos <= |ts|
  {
    if Peek(ts, p) != LPar then BadFor
    else
      var i := ForStart(ts, p + 1);
      if i.BadOpt? || Peek(ts, i.pos) != Semi then BadFor
      else
        var c := Optional(ts, i.pos + 1, Semi);
        if c.BadOpt? || Peek(ts, c.pos) != Semi then BadFor
        else
          var q := Optional(ts, c.pos + 1, RPar);
          if q.BadOpt? || Peek(ts, q.pos) != RPar then BadFor else OkFor(i.o, c.o, q.o, q.pos + 1)
  }

  function Stmt(ts: seq<Token>, p: nat): (r: Parse)
    ensures Moves(r, ts, p)
    decreases Left(ts, p), 1
  {
    match Peek(ts, p)
    case LBrace => BlockAt(ts, p + 1)
    case KwIf =>
      var c := Paren(ts, p + 1);
      if c.Bad? then Bad
      else
        var y := Stmt(ts, c.pos);
        if y.Bad? then Bad
        else if Peek(ts, y.pos) != KwElse then Ok(If(c.t, y.t, None), y.pos)
        else
          var n := Stmt(ts, y.pos + 1);
          if n.Bad? then Bad else Ok(If(c.t, y.t, Some(n.t)), n.pos)
    case KwWhile =>
      var c := Paren(ts, p + 1);
      if c.Bad? then Bad
      else
        var b := Stmt(ts, c.pos);
        if b.Bad? then Bad else Ok(While(c.t, b.t), b.pos)
    case KwFor =>
      var h := ForHead(ts, p + 1);
      if h.BadFor? then Bad
      else
        var b := Stmt(ts, h.pos);
        if b.Bad? then Bad else Ok(For(h.start, h.test, h.post, b.t), b.pos)
    case KwReturn =>
      if Peek(ts, p + 1) == Semi then Ok(Return(None), p + 2)
      else
        var e := Closed(Expr(ts, p + 1), ts, Semi);
        if e.Bad? then Bad else Ok(Return(Some(e.t)), e.pos)
    case KwBreak => if Peek(ts, p + 1) == Semi then Ok(Break, p + 2) else Bad
    case KwCont => if Peek(ts, p + 1) == Semi then Ok(Cont, p + 2) else Bad
    case KwInt => Closed(DeclAt(ts, p + 1), ts, Semi)
    case _ =>
      var e := Closed(Expr(ts, p), ts, Semi);
      if e.Bad? then Bad else Ok(ExprStmt(e.t), e.pos)
  }

  /** Statements up to a closing brace, which is left, or the end of the tokens. */
  function Stmts(ts: seq<Token>, p: nat): (r: ParseList)
    ensures r.OkList? ==> p <= r.pos && (p <= |ts| ==> r.pos <= |ts|)
    decreases Left(ts, p), 2
  {
    if Peek(ts, p) == RBrace || Peek(ts, p) == Eof then OkList(Nil, p)
    else
      var s := Stmt(ts, p);
      if s.Bad? then BadList
      else
        var rest := Stmts(ts, s.pos);
        if rest.BadList? then BadList else OkList(Cons(s.t, rest.ts), rest.pos)
  }

  /** The rest of a block, behind its opening brace. */
  function BlockAt(ts: seq<Token>, p: nat): (r: Parse)
    ensures Moves(r, ts, p)
    decreases Left(ts, p), 3
  {
    var b := Stmts(ts, p);
    if b.OkList? && Peek(ts, b.pos) == RBrace then Ok(Block(b.ts), b.pos + 1) else Bad
  }

  /** The else branch of an if statement. */
  function ElseAt(ts: seq<Token>, p: nat): ParseOpt {
    if Peek(ts, p) != KwElse then OkOpt(None, p)
    else
      var n := Stmt(ts, p + 1);
      if n.Ok? then OkOpt(Some(n.t), n.pos) else BadOpt
  }

  lemma IfParse(ts: seq<Token>, p: nat)
    requires Peek(ts, p) == KwIf
    ensures Stmt(ts, p) ==
      (var c := Paren(ts, p + 1);
       var y := if c.Ok? then Stmt(ts, c.pos) else Bad;
       var e := if y.Ok? then ElseAt(ts, y.pos) else BadOpt;
       if e.OkOpt? then Ok(If(c.t, y.t, e.o), e.pos) else Bad)
  {
    hide Paren;
  }

  lemma WhileParse(ts: seq<Token>, p: nat)
    requires Peek(ts, p) == KwWhile
    ensures Stmt(ts, p) ==
      (var c := Paren(ts, p + 1);
       var b := if c.Ok? then Stmt(ts, c.pos) else Bad;
       if b.Ok? then Ok(While(c.t, b.t), b.pos) else Bad)
  {
    hide Paren;
  }

  lemma ForParse(ts: seq<Token>, p: nat)
    requires Peek(ts, p) == KwFor
    ensures Stmt(ts, p) ==
      (var h := ForHead(ts, p + 1);
       var b := if h.OkFor? then Stmt(ts, h.pos) else Bad;
       if b.Ok? then Ok(For(h.start, h.test, h.post, b.t), b.pos) else Bad)
  {
    hide ForHead;
  }

  function ExprStmtAt(ts: seq<Token>, p: nat): Parse {
    var e := Closed(Expr(ts, p), ts, Semi);
    if e.Bad? then Bad else Ok(ExprStmt(e.t), e.pos)
  }

  /** Statements that no keyword and no brace announces are expressions. */
  lemma StmtIs(ts: seq<Token>, p: nat)
    ensures Peek(ts, p) == LBrace ==> Stmt(ts, p) == BlockAt(ts, p + 1)
    ensures Peek(ts, p) !in {LBrace, KwIf, KwWhile, KwFor, KwReturn, KwBreak, KwCont, KwInt} ==>
      Stmt(ts, p) == ExprStmtAt(ts, p)
  {
    hide Expr, BlockAt;
  }

  // ---- functions ----

  const MAX_PARAMS := 8
  const MAX_FUNCS := 16

  datatype ParseNames = OkNames(names: seq<string>, pos: nat) | BadNames

  /** Parameters up to the closing parenthesis, which is left; names behind the eighth are dropped. */
  function Params(ts: seq<Token>, p: nat, names: seq<string>): (r: ParseNames)
    ensures r.OkNames? ==> p <= r.pos && (p <= |ts| ==> r.pos <= |ts|)
    ensures |names| <= MAX_PARAMS && r.OkNames? ==> |r.names| <= MAX_PARAMS
    decreases Left(ts, p)
  {
    if Peek(ts, p) == RPar then OkNames(names, p)
    else
      var q := if Peek(ts, p) == KwInt then p + 1 else p;
      var t := Peek(ts, q);
      if !t.TIdent? then BadNames
      else
        var more := if |names| < MAX_PARAMS then names + [t.name] else names;
        if Peek(ts, q + 1) == Comma then Params(ts, q + 2, more) else OkNames(more, q + 1)
  }

  lemma ParamsStep(ts: seq<Token>, p: nat, names: seq<string>)
    requires Peek(ts, p) != RPar
    ensures var q := if Peek(ts, p) == KwInt then p + 1 else p;
      var t := Peek(ts, q);
      Params(ts, p, names) ==
        if !t.TIdent? then BadNames
        else
          var more := if |names| < MAX_PARAMS then names + [t.name] else names;
          if Peek(ts, q + 1) == Comma then Params(ts, q + 2, more) else OkNames(more, q + 1)
  {
  }

  lemma ParamsDone(ts: seq<Token>, p: nat, names: seq<string>)
    ensures Peek(ts, p) == RPar ==> Params(ts, p, names) == OkNames(names, p)
  {
  }

  datatype ParseFunc = OkFunc(f: Func, pos: nat) | BadFunc

  /** A function behind its result type. */
  function FuncAt(ts: seq<Token>, p: nat): (r: ParseFunc)
    ensures r.OkFunc? ==> p < r.pos <= |ts| && |r.f.params| <= MAX_PARAMS && r.f.body.Block?
  {
    var t := Peek(ts, p);
    if !t.TIdent? || Peek(ts, p + 1) != LPar then BadFunc
    else
      var ps := Params(ts, p + 2, []);
      if ps.BadNames? || Peek(ts, ps.pos) != RPar || Peek(ts, ps.pos + 1) != LBrace then BadFunc
      else
        var b := BlockAt(ts, ps.pos + 2);
        if b.Bad? then BadFunc else OkFunc(Func(t.name, ps.names, b.t), b.pos)
  }

  datatype ParseProgram = OkProgram(funcs: seq<Func>) | BadProgram

  /** The functions of a whole source, `fs` behind it already. */
  function Program(ts: seq<Token>, p: nat, fs: seq<Func>): (r: ParseProgram)
    decreases Left(ts, p)
  {
    if Peek(ts, p) == Eof then OkProgram(fs)
    else if (Peek(ts, p) != KwInt && Peek(ts, p) != KwVoid) || |fs| >= MAX_FUNCS then BadProgram
    else
      var f := FuncAt(ts, p + 1);
      if f.BadFunc? then BadProgram else Program(ts, f.pos, fs + [f.f])
  }

  // ---- printing, then parsing ----

  /** The tokens `s` stand at position `p`. */
  predicate At(ts: seq<Token>, p: nat, s: seq<Token>) {
    p + |s| <= |ts| && ts[p..p + |s|] == s
  }

  /** A token that cannot continue an expression printed at level `p`. */
  predicate Stops(t: Token, p: nat) {
    t != LPar && TokPrec(t) < (if p == 0 then 1 else p) && (p == 0 ==> !t.TAssign?)
  }

  lemma Split(ts: seq<Token>, p: nat, a: seq<Token>, b: seq<Token>)
    requires At(ts, p, a + b)
    ensures At(ts, p, a) && At(ts, p + |a|, b)
  {
    assert ts[p..p + |a + b|] == a + b;
    assert ts[p..p + |a|] == (a + b)[..|a|];
    assert ts[p + |a|..p + |a| + |b|] == (a + b)[|a|..];
  }

  lemma One(ts: seq<Token>, p: nat, t: Token)
    requires At(ts, p, [t])
    ensures Peek(ts, p) == t
  {
    assert ts[p..p + 1][0] == ts[p];
  }

  /** Parenthesised or not, what is printed for an operand of a unary operator is parsed by Primary. */
  lemma {:induction false} RoundPrimary(ts: seq<Token>, p: nat, t: Tree)
    requires IsExpr(t) && At(ts, p, PrintAt(t, 11)) && Peek(ts, p + |PrintAt(t, 11)|) != LPar
    ensures Primary(ts, p) == Ok(t, p + |PrintAt(t, 11)|)
    decreases t, if Prec(t) < 11 then 5 else 1
  {
    hide At, Binop, BinLoop, Expr, Args, BinPrec;
    if Prec(t) < 11 {
      assert PrintAt(t, 11) == [LPar] + Print(t) + [RPar];
      Bracket(ts, p, [LPar], Print(t), RPar);
      One(ts, p, LPar);
      RoundExpr(ts, p + 1, t);
    } else {
      assert PrintAt(t, 11) == Print(t);
      RoundPlain(ts, p, t);
    }
  }

  /** An opening, a middle and one closing token. */
  lemma Bracket(ts: seq<Token>, p: nat, a: seq<Token>, b: seq<Token>, c: Token)
    requires At(ts, p, a + b + [c])
    ensures At(ts, p, a) && At(ts, p + |a|, b) && Peek(ts, p + |a| + |b|) == c
  {
    Split(ts, p, a + b, [c]);
    Split(ts, p, a, b);
    One(ts, p + |a| + |b|, c);
  }

  lemma Two(ts: seq<Token>, p: nat, a: Token, b: Token)
    requires At(ts, p, [a, b])
    ensures Peek(ts, p) == a && Peek(ts, p + 1) == b
  {
    assert ts[p..p + 2][0] == ts[p] && ts[p..p + 2][1] == ts[p + 1];
  }

  lemma {:induction false} RoundPlain(ts: seq<Token>, p: nat, t: Tree)
    requires IsExpr(t) && Prec(t) == 11 && At(ts, p, Print(t)) && Peek(ts, p + |Print(t)|) != LPar
    ensures Primary(ts, p) == Ok(t, p + |Print(t)|)
    decreases t, 0
  {
    hide At, Binop, BinLoop, Expr, Args, BinPrec, PrintAt, PrintArgs, Left, AreExprs;
    match t
    case Num(v) => One(ts, p, TInt(v));
    case Str(off) => One(ts, p, TStr(off));
    case Var(n) => One(ts, p, TIdent(n));
    case Un(op, e) =>
      var o := if op.Neg? then TOp(Minus) else TNot;
      Split(ts, p, [o], PrintAt(e, 11));
      One(ts, p, o);
      RoundPrimary(ts, p + 1, e);
    case Call(n, args) =>
      Bracket(ts, p, [TIdent(n), LPar], PrintArgs(args), RPar);
      Two(ts, p, TIdent(n), LPar);
      RoundArgs(ts, p + 2, args);
  }

  lemma {:induction false} RoundArgs(ts: seq<Token>, p: nat, args: Trees)
    requires AreExprs(args) && At(ts, p, PrintArgs(args)) && Peek(ts, p + |PrintArgs(args)|) == RPar
    ensures Args(ts, p) == OkList(args, p + |PrintArgs(args)|)
    decreases args, 9
  {
    hide At, Binop, BinLoop, Primary, BinPrec, Expr, Print;
    match args
    case Nil =>
      assert Peek(ts, p) == RPar;
    case Cons(t, Nil) =>
      RoundExpr(ts, p, t);
      FirstToken(ts, p, t);
    case Cons(t, rest) =>
      Split(ts, p, PrintAt(t, 0) + [Comma], PrintArgs(rest));
      Split(ts, p, PrintAt(t, 0), [Comma]);
      One(ts, p + |PrintAt(t, 0)|, Comma);
      RoundExpr(ts, p, t);
      FirstToken(ts, p, t);
      RoundArgs(ts, p + |PrintAt(t, 0)| + 1, rest);
  }

  /** No expression starts with a closing parenthesis. */
  lemma {:induction false} FirstToken(ts: seq<Token>, p: nat, t: Tree)
    requires IsExpr(t) && At(ts, p, PrintAt(t, 0)) && Expr(ts, p).Ok?
    ensures Peek(ts, p) != RPar
  {
    assert Binop(ts, p, 1).Ok? && Primary(ts, p).Ok?;
  }

  /** Parenthesised operands are parsed after all others of the same tree. */
  function Rank(t: Tree, q: nat): nat { if Prec(t) < q then 4 else 0 }

  /** The left spine of binary operators: parsing reaches the loop with exactly this tree as its left operand. */
  lemma {:induction false} RoundSpine(ts: seq<Token>, p: nat, t: Tree, q: nat, prec: nat)
    requires IsExpr(t) && 1 <= prec <= q <= 11 && At(ts, p, PrintAt(t, q))
    requires var f := Peek(ts, p + |PrintAt(t, q)|); f != LPar && TokPrec(f) <= q
    ensures Binop(ts, p, prec) == BinLoop(ts, p + |PrintAt(t, q)|, prec, t)
    decreases t, Rank(t, q) + 2
  {
    hide At, Primary, Expr, Args, BinPrec, Binop, BinLoop, Print, PrintAt, Peek;
    PrintOpen(t, q);
    if t.Bin? && BinPrec(t.op) >= q {
      var k := BinPrec(t.op);
      Split(ts, p, PrintAt(t.l, k) + [TOp(t.op)], PrintAt(t.r, k + 1));
      Split(ts, p, PrintAt(t.l, k), [TOp(t.op)]);
      var o := p + |PrintAt(t.l, k)|;
      One(ts, o, TOp(t.op));
      RoundSpine(ts, p, t.l, k, prec);
      RoundLevel(ts, o + 1, t.r, k + 1);
      LoopOn(ts, o, prec, t.l, t.op, t.r, o + 1 + |PrintAt(t.r, k + 1)|);
    } else {
      RoundPrimary(ts, p, t);
      LoopStarts(ts, p, prec, t, p + |PrintAt(t, 11)|);
    }
  }

  /** A binary tree is printed without parentheses where its operator binds tightly enough; all else as an operand. */
  lemma PrintOpen(t: Tree, q: nat)
    requires IsExpr(t) && 1 <= q <= 11
    ensures if t.Bin? && BinPrec(t.op) >= q then
              PrintAt(t, q) == PrintAt(t.l, BinPrec(t.op)) + [TOp(t.op)] + PrintAt(t.r, BinPrec(t.op) + 1)
            else PrintAt(t, q) == PrintAt(t, 11)
  {
    hide BinPrec;
  }

  lemma LoopOn(ts: seq<Token>, o: nat, prec: nat, l: Tree, op: BinOp, r: Tree, pos: nat)
    requires Peek(ts, o) == TOp(op) && BinPrec(op) >= prec && Binop(ts, o + 1, BinPrec(op) + 1) == Ok(r, pos)
    ensures BinLoop(ts, o, prec, l) == BinLoop(ts, pos, prec, Bin(op, l, r))
  {
    hide BinPrec, Binop;
  }

  lemma LoopStarts(ts: seq<Token>, p: nat, prec: nat, t: Tree, pos: nat)
    requires Primary(ts, p) == Ok(t, pos)
    ensures Binop(ts, p, prec) == BinLoop(ts, pos, prec, t)
  {
    hide Primary, BinLoop;
  }

  lemma {:induction false} RoundLevel(ts: seq<Token>, p: nat, t: Tree, prec: nat)
    requires IsExpr(t) && 1 <= prec <= 11 && At(ts, p, PrintAt(t, prec))
    requires Stops(Peek(ts, p + |PrintAt(t, prec)|), prec)
    ensures Binop(ts, p, prec) == Ok(t, p + |PrintAt(t, prec)|)
    decreases t, Rank(t, prec) + 3
  {
    hide At, Primary, Expr, Args, BinPrec, Binop, Print, PrintAt;
    RoundSpine(ts, p, t, prec, prec);
  }

  lemma TargetOfAssign(ts: seq<Token>, p: nat, n: string)
    requires Peek(ts, p) == TIdent(n) && Peek(ts, p + 1).TAssign?
    ensures Binop(ts, p, 1) == Ok(Var(n), p + 1)
  {
    assert Primary(ts, p) == Ok(Var(n), p + 1);
  }

  /** Printing an expression and parsing the tokens gives the same tree back and consumes exactly those tokens. */
  lemma {:induction false} RoundExpr(ts: seq<Token>, p: nat, t: Tree)
    requires IsExpr(t) && At(ts, p, Print(t)) && Stops(Peek(ts, p + |Print(t)|), 0)
    ensures Expr(ts, p) == Ok(t, p + |Print(t)|)
    decreases t, 4
  {
    hide At, Primary, Args, BinPrec, Binop, BinLoop;
    if t.Assign? {
      Split(ts, p, [TIdent(t.name), TAssign(t.aop)], PrintAt(t.rhs, 0));
      Two(ts, p, TIdent(t.name), TAssign(t.aop));
      TargetOfAssign(ts, p, t.name);
      assert PrintAt(t.rhs, 0) == Print(t.rhs);
      RoundExpr(ts, p + 2, t.rhs);
    } else {
      assert PrintAt(t, 1) == Print(t);
      RoundLevel(ts, p, t, 1);
    }
  }
}
