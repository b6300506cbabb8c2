/** Printing whole programs and parsing them again; what the parser accepts is exactly what can be printed. */
module ZbcPrinter {
  import opened ZbcSyntax
  import opened ZbcGrammar

  // ---- trees the grammar has ----

  /** The statement ends in an if without else, so that an else behind it would belong to that. */
  predicate Open(t: Tree) {
    match t
    case If(_, _, n) => n.Some? ==> Open(n.t)
    case While(_, b) => Open(b)
    case For(_, _, _, b) => Open(b)
    case _ => false
  }

  predicate IsStart(o: Opt) { o.Some? ==> IsExpr(o.t) || (o.t.Decl? && OptExpr(o.t.init)) }

  /** A statement; what stands between if and else is not open. */
  predicate WellFormed(t: Tree) {
    match t
    case Block(ss) => AllWellFormed(ss)
    case If(c, y, n) => IsExpr(c) && WellFormed(y) && (n.Some? ==> !Open(y) && WellFormed(n.t))
    case While(c, b) => IsExpr(c) && WellFormed(b)
    case For(i, c, q, b) => IsStart(i) && OptExpr(c) && OptExpr(q) && WellFormed(b)
    case Return(o) => OptExpr(o)
    case Break => true
    case Cont => true
    case Decl(_, i) => OptExpr(i)
    case ExprStmt(e) => IsExpr(e)
    case _ => false
  }

  predicate AllWellFormed(ts: Trees) { ts.Cons? ==> WellFormed(ts.head) && AllWellFormed(ts.tail) }

  predicate GoodFunc(f: Func) { |f.params| <= 8 && f.body.Block? && WellFormed(f.body) }

  predicate GoodProgram(fs: seq<Func>) { |fs| <= 16 && forall k | 0 <= k < |fs| :: GoodFunc(fs[k]) }

  // ---- printing ----

  function PrintOpt(o: Opt): seq<Token>
    requires OptExpr(o)
  {
    if o.None? then [] else Print(o.t)
  }

  function PrintParen(c: Tree): seq<Token>
    requires IsExpr(c)
  {
    [LPar] + (Print(c) + [RPar])
  }

  /** A declaration behind `int`. */
  function PrintDecl(n: string, i: Opt): seq<Token>
    requires OptExpr(i)
  {
    [TIdent(n)] + if i.None? then [] else [TAssign(Set)] + Print(i.t)
  }

  function PrintStart(i: Opt): seq<Token>
    requires IsStart(i)
  {
    if i.None? then []
    else if i.t.Decl? then [KwInt] + PrintDecl(i.t.name, i.t.init)
    else Print(i.t)
  }

  function PrintHead(i: Opt, c: Opt, q: Opt): seq<Token>
    requires IsStart(i) && OptExpr(c) && OptExpr(q)
  {
    [LPar] + ((PrintStart(i) + [Semi]) + ((PrintOpt(c) + [Semi]) + (PrintOpt(q) + [RPar])))
  }

  /** A statement without any braces of its own but those of its blocks. */
  function PrintStmt(t: Tree): seq<Token>
    requires WellFormed(t)
  {
    match t
    case Block(ss) => [LBrace] + (PrintStmts(ss) + [RBrace])
    case If(c, y, n) => [KwIf] + (PrintParen(c) + (PrintStmt(y) + PrintElse(n)))
    case While(c, b) => [KwWhile] + (PrintParen(c) + PrintStmt(b))
    case For(i, c, q, b) => [KwFor] + (PrintHead(i, c, q) + PrintStmt(b))
    case Return(o) => [KwReturn] + (PrintOpt(o) + [Semi])
    case Break => [KwBreak, Semi]
    case Cont => [KwCont, Semi]
    case Decl(n, i) => [KwInt] + (PrintDecl(n, i) + [Semi])
    case ExprStmt(e) => Print(e) + [Semi]
  }

  function PrintElse(n: Opt): seq<Token>
    requires n.Some? ==> WellFormed(n.t)
  {
    if n.None? then [] else [KwElse] + PrintStmt(n.t)
  }

  function PrintStmts(ts: Trees): seq<Token>
    requires AllWellFormed(ts)
  {
    if ts.Nil? then [] else PrintStmt(ts.head) + PrintStmts(ts.tail)
  }

  /** Parameters and the closing parenthesis. */
  function PrintParams(names: seq<string>): (r: seq<Token>)
    ensures r != []
  {
    if names == [] then [RPar]
    else [KwInt, TIdent(names[0])] + if |names| == 1 then [RPar] else [Comma] + PrintParams(names[1..])
  }

  /** A function behind its result type. */
  function PrintFunc(f: Func): seq<Token>
    requires GoodFunc(f)
  {
    [TIdent(f.name), LPar] + (PrintParams(f.params) + PrintStmt(f.body))
  }

  function PrintProgram(fs: seq<Func>): seq<Token>
    requires forall k | 0 <= k < |fs| :: GoodFunc(fs[k])
  {
    if fs == [] then [] else ([KwInt] + PrintFunc(fs[0])) + PrintProgram(fs[1..])
  }

  // ---- first tokens ----

  predicate StartsExpr(t: Token) { t.TInt? || t.TStr? || t.TIdent? || t == LPar || t == TOp(Minus) || t == TNot }

  lemma {:induction false} ExprStart(t: Tree)
    requires IsExpr(t)
    ensures Print(t) != [] && StartsExpr(Print(t)[0])
    ensures forall p: nat :: PrintAt(t, p) != [] && StartsExpr(PrintAt(t, p)[0])
  {
    if t.Bin? { ExprStart(t.l); }
  }

  lemma ExprStartsAt(ts: seq<Token>, p: nat, t: Tree)
    requires IsExpr(t) && At(ts, p, Print(t))
    ensures StartsExpr(Peek(ts, p))
  {
    hide Print;
    ExprStart(t);
    assert ts[p..p + |Print(t)|][0] == ts[p];
  }

  predicate StartsStmt(t: Token) { t != RBrace && t != Eof && t != KwElse }

  lemma StmtStart(ts: seq<Token>, p: nat, t: Tree)
    requires WellFormed(t) && At(ts, p, PrintStmt(t))
    ensures StartsStmt(Peek(ts, p))
  {
    hide Print, PrintParen, PrintHead, PrintOpt, PrintDecl;
    assert PrintStmt(t) != [] && StartsStmt(PrintStmt(t)[0]) by {
      if t.ExprStmt? { ExprStart(t.e); }
    }
    assert ts[p..p + |PrintStmt(t)|][0] == ts[p];
  }

  // ---- parts ----

  lemma RoundParen(ts: seq<Token>, p: nat, c: Tree)
    requires IsExpr(c) && At(ts, p, PrintParen(c))
    ensures Paren(ts, p) == Ok(c, p + |PrintParen(c)|)
  {
    hide At, Print, Expr;
    Split(ts, p, [LPar], Print(c) + [RPar]);
    One(ts, p, LPar);
    Split(ts, p + 1, Print(c), [RPar]);
    One(ts, p + 1 + |Print(c)|, RPar);
    RoundExpr(ts, p + 1, c);
  }

  lemma RoundOpt(ts: seq<Token>, p: nat, o: Opt, stop: Token)
    requires OptExpr(o) && At(ts, p, PrintOpt(o) + [stop]) && (stop == Semi || stop == RPar)
    ensures Optional(ts, p, stop) == OkOpt(o, p + |PrintOpt(o)|) && Peek(ts, p + |PrintOpt(o)|) == stop
  {
    hide At, Print, Expr;
    Split(ts, p, PrintOpt(o), [stop]);
    One(ts, p + |PrintOpt(o)|, stop);
    if o.Some? {
      ExprStartsAt(ts, p, o.t);
      RoundExpr(ts, p, o.t);
    }
  }

  lemma RoundDecl(ts: seq<Token>, p: nat, n: string, i: Opt)
    requires OptExpr(i) && At(ts, p, PrintDecl(n, i) + [Semi])
    ensures DeclAt(ts, p) == Ok(Decl(n, i), p + |PrintDecl(n, i)|) && Peek(ts, p + |PrintDecl(n, i)|) == Semi
  {
    hide At, Print, Expr;
    Split(ts, p, PrintDecl(n, i), [Semi]);
    One(ts, p + |PrintDecl(n, i)|, Semi);
    Split(ts, p, [TIdent(n)], if i.None? then [] else [TAssign(Set)] + Print(i.t));
    One(ts, p, TIdent(n));
    if i.Some? {
      Split(ts, p + 1, [TAssign(Set)], Print(i.t));
      One(ts, p + 1, TAssign(Set));
      RoundExpr(ts, p + 2, i.t);
    }
  }

  lemma RoundStart(ts: seq<Token>, p: nat, i: Opt)
    requires IsStart(i) && At(ts, p, PrintStart(i) + [Semi])
    ensures ForStart(ts, p) == OkOpt(i, p + |PrintStart(i)|) && Peek(ts, p + |PrintStart(i)|) == Semi
  {
    hide At, Print, Expr, DeclAt, PrintDecl;
    if i.Some? && i.t.Decl? {
      var d := PrintDecl(i.t.name, i.t.init);
      assert PrintStart(i) + [Semi] == [KwInt] + (d + [Semi]);
      Split(ts, p, [KwInt], d + [Semi]);
      One(ts, p, KwInt);
      RoundDecl(ts, p + 1, i.t.name, i.t.init);
    } else {
      assert PrintStart(i) == PrintOpt(i);
      RoundOpt(ts, p, i, Semi);
      Split(ts, p, PrintOpt(i), [Semi]);
      if i.Some? { ExprStartsAt(ts, p, i.t); } else { One(ts, p, Semi); }
    }
  }

  lemma RoundHead(ts: seq<Token>, p: nat, i: Opt, c: Opt, q: Opt)
    requires IsStart(i) && OptExpr(c) && OptExpr(q) && At(ts, p, PrintHead(i, c, q))
    ensures ForHead(ts, p) == OkFor(i, c, q, p + |PrintHead(i, c, q)|)
  {
    hide At, PrintStart, PrintOpt, ForStart, Optional;
    var a, b, d := PrintStart(i) + [Semi], PrintOpt(c) + [Semi], PrintOpt(q) + [RPar];
    Split(ts, p, [LPar], a + (b + d));
    One(ts, p, LPar);
    Split(ts, p + 1, a, b + d);
    RoundStart(ts, p + 1, i);
    Split(ts, p + 1 + |a|, b, d);
    RoundOpt(ts, p + 1 + |a|, c, Semi);
    RoundOpt(ts, p + 1 + |a| + |b|, q, RPar);
  }

  // ---- statements ----

  /** Printing a statement and parsing the tokens gives the same tree back and consumes exactly those tokens; behind an
      open one no else must stand. */
  lemma {:induction false} RoundStmt(ts: seq<Token>, p: nat, t: Tree)
    requires WellFormed(t) && At(ts, p, PrintStmt(t))
    requires Open(t) ==> Peek(ts, p + |PrintStmt(t)|) != KwElse
    ensures Stmt(ts, p) == Ok(t, p + |PrintStmt(t)|)
    decreases t, 1
  {
    hide At, Print, PrintParen, PrintHead, PrintOpt, PrintDecl, Stmt;
    match t
    case Block(ss) => RoundBlock(ts, p, ss);
    case If(c, y, n) => RoundIf(ts, p, c, y, n);
    case While(c, b) => RoundWhile(ts, p, c, b);
    case For(i, c, q, b) => RoundFor(ts, p, i, c, q, b);
    case _ => RoundSimple(ts, p, t);
  }

  /** A keyword and two parts. */
  lemma Headed(ts: seq<Token>, p: nat, t: Token, a: seq<Token>, b: seq<Token>)
    requires At(ts, p, [t] + (a + b))
    ensures Peek(ts, p) == t && At(ts, p + 1, a) && At(ts, p + 1 + |a|, b)
  {
    hide At;
    Split(ts, p, [t], a + b);
    One(ts, p, t);
    Split(ts, p + 1, a, b);
  }

  /** Statements without statements in them. */
  lemma RoundSimple(ts: seq<Token>, p: nat, t: Tree)
    requires WellFormed(t) && At(ts, p, PrintStmt(t)) && !t.Block? && !t.If? && !t.While? && !t.For?
    ensures Stmt(ts, p) == Ok(t, p + |PrintStmt(t)|)
  {
    hide At, Print, PrintDecl, DeclAt, Expr, Optional;
    match t
    case Return(o) => RoundReturn(ts, p, o);
    case Break => Two(ts, p, KwBreak, Semi);
    case Cont => Two(ts, p, KwCont, Semi);
    case Decl(n, i) =>
      Split(ts, p, [KwInt], PrintDecl(n, i) + [Semi]);
      One(ts, p, KwInt);
      RoundDecl(ts, p + 1, n, i);
    case ExprStmt(e) =>
      Split(ts, p, Print(e), [Semi]);
      One(ts, p + |Print(e)|, Semi);
      ExprStartsAt(ts, p, e);
      RoundExpr(ts, p, e);
  }

  lemma RoundReturn(ts: seq<Token>, p: nat, o: Opt)
    requires OptExpr(o) && At(ts, p, PrintStmt(Return(o)))
    ensures Stmt(ts, p) == Ok(Return(o), p + |PrintStmt(Return(o))|)
  {
    hide At, Print, Expr;
    Split(ts, p, [KwReturn], PrintOpt(o) + [Semi]);
    One(ts, p, KwReturn);
    RoundOpt(ts, p + 1, o, Semi);
    if o.Some? {
      Split(ts, p + 1, PrintOpt(o), [Semi]);
      ExprStartsAt(ts, p + 1, o.t);
    }
  }

  lemma {:induction false} RoundIf(ts: seq<Token>, p: nat, c: Tree, y: Tree, n: Opt)
    requires var t := If(c, y, n);
      WellFormed(t) && At(ts, p, PrintStmt(t)) && (Open(t) ==> Peek(ts, p + |PrintStmt(t)|) != KwElse)
    ensures Stmt(ts, p) == Ok(If(c, y, n), p + |PrintStmt(If(c, y, n))|)
    decreases If(c, y, n), 0
  {
    hide At, PrintParen, Paren, Stmt, PrintElse, ElseAt;
    var a, b, e := PrintParen(c), PrintStmt(y), PrintElse(n);
    assert PrintStmt(If(c, y, n)) == [KwIf] + (a + (b + e));
    NoneToPrint();
    hide PrintStmt;
    Headed(ts, p, KwIf, a, b + e);
    RoundParen(ts, p + 1, c);
    var q := p + 1 + |a|;
    Split(ts, q, b, e);
    IfParse(ts, p);
    RoundElse(ts, q + |b|, n);
    RoundStmt(ts, q, y);
  }

  lemma NoneToPrint()
    ensures PrintElse(None) == []
  {
  }

  lemma {:induction false} RoundElse(ts: seq<Token>, p: nat, n: Opt)
    requires (n.Some? ==> WellFormed(n.t)) && At(ts, p, PrintElse(n))
    requires n.None? || Open(n.t) ==> Peek(ts, p + |PrintElse(n)|) != KwElse
    ensures ElseAt(ts, p) == OkOpt(n, p + |PrintElse(n)|)
    decreases n, 0
  {
    hide At, PrintStmt, Stmt;
    if n.Some? {
      Split(ts, p, [KwElse], PrintStmt(n.t));
      One(ts, p, KwElse);
      RoundStmt(ts, p + 1, n.t);
    }
  }

  lemma {:induction false} RoundWhile(ts: seq<Token>, p: nat, c: Tree, b: Tree)
    requires var t := While(c, b);
      WellFormed(t) && At(ts, p, PrintStmt(t)) && (Open(t) ==> Peek(ts, p + |PrintStmt(t)|) != KwElse)
    ensures Stmt(ts, p) == Ok(While(c, b), p + |PrintStmt(While(c, b))|)
    decreases While(c, b), 0
  {
    hide At, PrintParen, Paren, Stmt;
    var a := PrintParen(c);
    assert PrintStmt(While(c, b)) == [KwWhile] + (a + PrintStmt(b));
    Headed(ts, p, KwWhile, a, PrintStmt(b));
    WhileParse(ts, p);
    RoundParen(ts, p + 1, c);
    RoundStmt(ts, p + 1 + |a|, b);
  }

  lemma {:induction false} RoundFor(ts: seq<Token>, p: nat, i: Opt, c: Opt, q: Opt, b: Tree)
    requires var t := For(i, c, q, b);
      WellFormed(t) && At(ts, p, PrintStmt(t)) && (Open(t) ==> Peek(ts, p + |PrintStmt(t)|) != KwElse)
    ensures Stmt(ts, p) == Ok(For(i, c, q, b), p + |PrintStmt(For(i, c, q, b))|)
    decreases For(i, c, q, b), 0
  {
    hide At, PrintHead, ForHead, Stmt, IsStart, OptExpr;
    var a := PrintHead(i, c, q);
    assert PrintStmt(For(i, c, q, b)) == [KwFor] + (a + PrintStmt(b));
    Headed(ts, p, KwFor, a, PrintStmt(b));
    ForParse(ts, p);
    RoundHead(ts, p + 1, i, c, q);
    RoundStmt(ts, p + 1 + |a|, b);
  }

  lemma {:induction false} RoundBlock(ts: seq<Token>, p: nat, ss: Trees)
    requires AllWellFormed(ss) && At(ts, p, PrintStmt(Block(ss)))
    ensures Stmt(ts, p) == Ok(Block(ss), p + |PrintStmt(Block(ss))|)
    decreases Block(ss), 0
  {
    hide At, PrintStmts, Stmts, Paren, ForHead, DeclAt, Expr;
    Split(ts, p, [LBrace], PrintStmts(ss) + [RBrace]);
    One(ts, p, LBrace);
    Split(ts, p + 1, PrintStmts(ss), [RBrace]);
    One(ts, p + 1 + |PrintStmts(ss)|, RBrace);
    RoundStmts(ts, p + 1, ss);
  }

  lemma {:induction false} RoundStmts(ts: seq<Token>, p: nat, ss: Trees)
    requires AllWellFormed(ss) && At(ts, p, PrintStmts(ss)) && Peek(ts, p + |PrintStmts(ss)|) == RBrace
    ensures Stmts(ts, p) == OkList(ss, p + |PrintStmts(ss)|)
    decreases ss, 2
  {
    hide At, PrintStmt, Stmt;
    if ss.Cons? {
      var a, b := PrintStmt(ss.head), PrintStmts(ss.tail);
      Split(ts, p, a, b);
      StmtStart(ts, p, ss.head);
      if ss.tail.Cons? {
        Split(ts, p + |a|, PrintStmt(ss.tail.head), PrintStmts(ss.tail.tail));
        StmtStart(ts, p + |a|, ss.tail.head);
      }
      RoundStmt(ts, p, ss.head);
      RoundStmts(ts, p + |a|, ss.tail);
    }
  }

  // ---- functions and programs ----

  lemma {:induction false} RoundParams(ts: seq<Token>, p: nat, done: seq<string>, names: seq<string>)
    requires |done| + |names| <= MAX_PARAMS && At(ts, p, PrintParams(names))
    ensures var q := p + |PrintParams(names)| - 1;
            Params(ts, p, done) == OkNames(done + names, q) && Peek(ts, q) == RPar
    decreases |names|
  {
    hide At, Params;
    if names == [] {
      One(ts, p, RPar);
      ParamsDone(ts, p, done);
      assert done + names == done;
    } else {
      var rest := if |names| == 1 then [RPar] else [Comma] + PrintParams(names[1..]);
      Split(ts, p, [KwInt, TIdent(names[0])], rest);
      Two(ts, p, KwInt, TIdent(names[0]));
      ParamsStep(ts, p, done);
      if |names| == 1 {
        One(ts, p + 2, RPar);
        assert names == [names[0]];
      } else {
        Split(ts, p + 2, [Comma], PrintParams(names[1..]));
        One(ts, p + 2, Comma);
        RoundParams(ts, p + 3, done + [names[0]], names[1..]);
        assert done + [names[0]] + names[1..] == done + names;
      }
    }
  }

  lemma RoundFunc(ts: seq<Token>, p: nat, f: Func)
    requires GoodFunc(f) && At(ts, p, PrintFunc(f))
    ensures FuncAt(ts, p) == OkFunc(f, p + |PrintFunc(f)|)
  {
    hide At, PrintParams, Params, PrintStmt, Stmt, BlockAt;
    var a, b := PrintParams(f.params), PrintStmt(f.body);
    Split(ts, p, [TIdent(f.name), LPar], a + b);
    Two(ts, p, TIdent(f.name), LPar);
    Split(ts, p + 2, a, b);
    RoundParams(ts, p + 2, [], f.params);
    assert [] + f.params == f.params;
    RoundStmt(ts, p + 2 + |a|, f.body);
    BodyIsBlock(ts, p + 2 + |a|, f.body);
  }

  lemma BodyIsBlock(ts: seq<Token>, p: nat, b: Tree)
    requires b.Block? && WellFormed(b) && At(ts, p, PrintStmt(b))
    ensures Peek(ts, p) == LBrace && Stmt(ts, p) == BlockAt(ts, p + 1)
  {
    hide At, PrintStmts, BlockAt;
    Split(ts, p, [LBrace], PrintStmts(b.body_) + [RBrace]);
    One(ts, p, LBrace);
  }

  lemma {:induction false} RoundFuncs(ts: seq<Token>, p: nat, done: seq<Func>, fs: seq<Func>)
    requires GoodProgram(done + fs) && (forall k | 0 <= k < |fs| :: GoodFunc(fs[k]))
    requires At(ts, p, PrintProgram(fs)) && Peek(ts, p + |PrintProgram(fs)|) == Eof
    ensures Program(ts, p, done) == OkProgram(done + fs)
    decreases |fs|
  {
    hide At, GoodFunc, PrintFunc, FuncAt;
    if fs == [] {
      assert done + fs == done;
    } else {
      var f := PrintFunc(fs[0]);
      Split(ts, p, [KwInt] + f, PrintProgram(fs[1..]));
      Split(ts, p, [KwInt], f);
      One(ts, p, KwInt);
      RoundFunc(ts, p + 1, fs[0]);
      assert done + [fs[0]] + fs[1..] == done + fs;
      RoundFuncs(ts, p + 1 + |f|, done + [fs[0]], fs[1..]);
    }
  }

  /** Printing a program and parsing the tokens gives the program back. */
  lemma RoundProgram(fs: seq<Func>)
    requires GoodProgram(fs)
    ensures Program(PrintProgram(fs), 0, []) == OkProgram(fs)
  {
    hide PrintProgram, Program, GoodFunc, At;
    var ts := PrintProgram(fs);
    Whole(ts);
    assert [] + fs == fs;
    RoundFuncs(ts, 0, [], fs);
  }

  lemma Whole(ts: seq<Token>)
    ensures At(ts, 0, ts)
  {
    assert ts[0..0 + |ts|] == ts;
  }

  // ---- the parser makes nothing else ----

  ghost predicate ExprMade(r: Parse) { r.Ok? ==> IsExpr(r.t) }

  lemma {:induction false} PrimaryMade(ts: seq<Token>, p: nat)
    ensures ExprMade(Primary(ts, p))
    decreases Left(ts, p), 1
  {
    hide Expr, Args, Binop;
    match Peek(ts, p)
    case TIdent(n) => ArgsMade(ts, p + 2);
    case LPar => ExprIsMade(ts, p + 1);
    case TOp(Minus) => PrimaryMade(ts, p + 1);
    case TNot => PrimaryMade(ts, p + 1);
    case _ =>
  }

  lemma {:induction false} ArgsMade(ts: seq<Token>, p: nat)
    ensures var r := Args(ts, p); r.OkList? ==> AreExprs(r.ts)
    decreases Left(ts, p), 4
  {
    hide Expr;
    if Peek(ts, p) != RPar {
      ExprIsMade(ts, p);
      var e := Expr(ts, p);
      if e.Ok? { ArgsMade(ts, e.pos + 1); }
    }
  }

  lemma {:induction false} BinopMade(ts: seq<Token>, p: nat, prec: nat)
    ensures ExprMade(Binop(ts, p, prec))
    decreases Left(ts, p), 2
  {
    hide Primary, BinLoop;
    PrimaryMade(ts, p);
    var l := Primary(ts, p);
    if l.Ok? { LoopMade(ts, l.pos, prec, l.t); }
  }

  lemma {:induction false} LoopMade(ts: seq<Token>, p: nat, prec: nat, lhs: Tree)
    requires IsExpr(lhs)
    ensures ExprMade(BinLoop(ts, p, prec, lhs))
    decreases Left(ts, p), 2
  {
    hide Binop, BinPrec;
    var t := Peek(ts, p);
    if t.TOp? && BinPrec(t.op) >= prec {
      BinopMade(ts, p + 1, BinPrec(t.op) + 1);
      var rhs := Binop(ts, p + 1, BinPrec(t.op) + 1);
      if rhs.Ok? { LoopMade(ts, rhs.pos, prec, Bin(t.op, lhs, rhs.t)); }
    }
  }

  /** What is parsed as an expression is one. */
  lemma {:induction false} ExprIsMade(ts: seq<Token>, p: nat)
    ensures ExprMade(Expr(ts, p))
    decreases Left(ts, p), 3
  {
    hide Binop;
    BinopMade(ts, p, 1);
    var l := Binop(ts, p, 1);
    if l.Ok? { ExprIsMade(ts, l.pos + 1); }
  }

  lemma ParenMade(ts: seq<Token>, p: nat)
    ensures ExprMade(Paren(ts, p))
  {
    hide Expr;
    ExprIsMade(ts, p + 1);
  }

  lemma OptMade(ts: seq<Token>, p: nat, stop: Token)
    ensures var r := Optional(ts, p, stop); r.OkOpt? ==> OptExpr(r.o)
  {
    hide Expr;
    ExprIsMade(ts, p);
  }

  lemma DeclMade(ts: seq<Token>, p: nat)
    ensures var r := DeclAt(ts, p); r.Ok? ==> r.t.Decl? && OptExpr(r.t.init)
  {
    hide Expr;
    ExprIsMade(ts, p + 2);
  }

  lemma HeadMade(ts: seq<Token>, p: nat)
    ensures var h := ForHead(ts, p); h.OkFor? ==> IsStart(h.start) && OptExpr(h.test) && OptExpr(h.post)
  {
    hide Optional, DeclAt;
    var i := ForStart(ts, p + 1);
    DeclMade(ts, p + 2);
    OptMade(ts, p + 1, Semi);
    if i.OkOpt? {
      OptMade(ts, i.pos + 1, Semi);
      var c := Optional(ts, i.pos + 1, Semi);
      if c.OkOpt? { OptMade(ts, c.pos + 1, RPar); }
    }
  }

  /** A statement of the grammar; if it is open, no else stands behind it. */
  ghost predicate Made(ts: seq<Token>, r: Parse) {
    r.Ok? ==> WellFormed(r.t) && (Open(r.t) ==> Peek(ts, r.pos) != KwElse)
  }

  lemma {:induction false} StmtMade(ts: seq<Token>, p: nat)
    ensures Made(ts, Stmt(ts, p))
    decreases Left(ts, p), 1
  {
    hide Paren, ForHead, DeclAt, Expr, Stmts, Stmt, BlockAt;
    match Peek(ts, p)
    case LBrace =>
      StmtIs(ts, p);
      BlockMade(ts, p + 1);
    case KwIf => IfMade(ts, p);
    case KwWhile =>
      WhileParse(ts, p);
      ParenMade(ts, p + 1);
      var c := Paren(ts, p + 1);
      if c.Ok? { StmtMade(ts, c.pos); }
    case KwFor =>
      ForParse(ts, p);
      HeadMade(ts, p + 1);
      var h := ForHead(ts, p + 1);
      if h.OkFor? { StmtMade(ts, h.pos); }
    case _ => SimpleMade(ts, p);
  }

  lemma SimpleMade(ts: seq<Token>, p: nat)
    requires Peek(ts, p) !in {LBrace, KwIf, KwWhile, KwFor}
    ensures Made(ts, Stmt(ts, p))
  {
    hide DeclAt, Expr;
    ExprIsMade(ts, p);
    ExprIsMade(ts, p + 1);
    DeclMade(ts, p + 1);
  }

  /** An else belongs to the nearest if: the statement in front of it is not open. */
  lemma {:induction false} IfMade(ts: seq<Token>, p: nat)
    requires Peek(ts, p) == KwIf
    ensures Made(ts, Stmt(ts, p))
    decreases Left(ts, p), 0
  {
    hide Paren, Stmt;
    IfParse(ts, p);
    ParenMade(ts, p + 1);
    var c := Paren(ts, p + 1);
    if c.Ok? {
      StmtMade(ts, c.pos);
      var y := Stmt(ts, c.pos);
      if y.Ok? { StmtMade(ts, y.pos + 1); }
    }
  }

  lemma {:induction false} StmtsMade(ts: seq<Token>, p: nat)
    ensures var r := Stmts(ts, p); r.OkList? ==> AllWellFormed(r.ts)
    decreases Left(ts, p), 2
  {
    hide Stmt;
    if Peek(ts, p) != RBrace && Peek(ts, p) != Eof {
      StmtMade(ts, p);
      var s := Stmt(ts, p);
      if s.Ok? { StmtsMade(ts, s.pos); }
    }
  }

  lemma {:induction false} BlockMade(ts: seq<Token>, p: nat)
    ensures var r := BlockAt(ts, p); Made(ts, r) && (r.Ok? ==> r.t.Block?)
    decreases Left(ts, p), 3
  {
    hide Stmts;
    StmtsMade(ts, p);
  }

  lemma FuncMade(ts: seq<Token>, p: nat)
    ensures var r := FuncAt(ts, p); r.OkFunc? ==> GoodFunc(r.f)
  {
    hide Params, BlockAt;
    var ps := Params(ts, p + 2, []);
    if ps.OkNames? { BlockMade(ts, ps.pos + 2); }
  }

  lemma {:induction false} FuncsMade(ts: seq<Token>, p: nat, fs: seq<Func>)
    requires GoodProgram(fs)
    ensures var r := Program(ts, p, fs); r.OkProgram? ==> GoodProgram(r.funcs)
    decreases Left(ts, p)
  {
    hide FuncAt, GoodFunc;
    FuncMade(ts, p + 1);
    var f := FuncAt(ts, p + 1);
    if f.OkFunc? && |fs| < MAX_FUNCS { FuncsMade(ts, f.pos, fs + [f.f]); }
  }

  /** The programs of the grammar are exactly those that some tokens are parsed to; and printing what was parsed and
      parsing it again makes no difference. */
  lemma ParsedIsGood(fs: seq<Func>)
    ensures GoodProgram(fs) <==> exists ts :: Program(ts, 0, []) == OkProgram(fs)
  {
    hide GoodFunc, Program;
    if GoodProgram(fs) {
      RoundProgram(fs);
    }
    if ts :| Program(ts, 0, []) == OkProgram(fs) {
      FuncsMade(ts, 0, []);
    }
  }
}
