/** The parser itself: a position in the token list, the node table it fills, and a flag that says an error was
    reported. */
module ZbcParsers {
  import opened ZbcSyntax
  import opened ZbcGrammar
  import opened ZbcNodes
  import opened ZbcParseSteps
  import opened ZbcStmtSteps

  class Parser {
    const toks: seq<Token>
    const nodes: array<Node>
    var pos: nat
    var count: nat
    var hadError: bool
    var funcs: seq<FuncRow>

    constructor (toks: seq<Token>)
      ensures this.toks == toks && Valid() && fresh(nodes) && Now() == Snap(0, [], false) && funcs == []
    {
      this.toks, pos, count, hadError, funcs := toks, 0, 0, false, [];
      nodes := new Node[MAX_NODES](_ => Blank(NNum));
    }

    ghost predicate Valid()
      reads this
    {
      nodes.Length == MAX_NODES && count <= MAX_NODES
    }

    /** Position, rows filled so far, error flag. */
    ghost function Now(): Snap
      requires Valid()
      reads this, nodes
    {
      Snap(pos, nodes[..count], hadError)
    }

    function Head(): Token
      reads this
    {
      Peek(toks, pos)
    }

    function Rest(): nat
      reads this
    {
      Left(toks, pos)
    }

    method Fail()
      modifies `hadError
      ensures hadError
    {
      hadError := true;
    }

    method Accept(t: Token) returns (ok: bool)
      requires t != Eof
      modifies `pos
      ensures ok == (old(Head()) == t) && pos == if ok then old(pos) + 1 else old(pos)
      ensures ok ==> old(pos) < |toks|
    {
      ok := Head() == t;
      if ok {
        pos := pos + 1;
      }
    }

    method Expect(t: Token)
      requires t != Eof
      modifies `pos, `hadError
      ensures pos == if old(Head()) == t then old(pos) + 1 else old(pos)
      ensures hadError == (old(hadError) || old(Head()) != t)
    {
      var ok := Accept(t);
      if !ok {
        Fail();
      }
    }

    /** A fresh row; when the table is full an error, and row 0. */
    method NewNode(k: NodeKind) returns (i: nat)
      requires Valid()
      modifies `count, `hadError, nodes
      ensures Valid() && i < MAX_NODES && count >= old(count)
      ensures hadError == (old(hadError) || old(count) == MAX_NODES)
      ensures old(count) < MAX_NODES ==> i == old(count) && Now().table == old(Now().table) + [Blank(k)]
    {
      if count >= MAX_NODES {
        Fail();
        return 0;
      }
      i := count;
      count := count + 1;
      nodes[i] := Blank(k);
    }

    method SetRow(i: nat, row: Node)
      requires Valid() && i < MAX_NODES
      modifies nodes
      ensures Now() == if i < count then old(Now()).(table := old(Now()).table[i := row]) else old(Now())
    {
      nodes[i] := row;
    }

    /** A row that has been filled, as it stands in the table. */
    function Row(i: nat): (row: Node)
      requires Valid() && i < MAX_NODES
      reads this, nodes
      ensures i < count ==> row == Now().table[i]
    {
      nodes[i]
    }

    method ParsePrimary() returns (n: nat)
      requires Valid()
      modifies `pos, `count, `hadError, nodes
      ensures Valid() && n < MAX_NODES && pos >= old(pos) && count >= old(count)
      ensures Outcome(Primary(toks, old(pos)), n, old(Now()), Now())
      decreases Rest(), 1
    {
      hide Args, Expr, CallAt, Outcome, Binop, BinLoop, BinPrec, Layout, Size, Root;
      ghost var s0, r := Now(), Primary(toks, pos);
      var t := Head();
      if t.TInt? || t.TStr? {
        n := NewNode(if t.TInt? then NNum else NStr);
        SetRow(n, if t.TInt? then Row(n).(ival := t.v) else Row(n).(strOff := t.off));
        pos := pos + 1;
        LeafStep(r.t, n, s0, Now());
      } else if t.TIdent? {
        n := ParseName();
      } else if t == LPar {
        pos := pos + 1;
        n := ParseExpr();
        ghost var s := Now();
        Expect(RPar);
        CloseStep(Expr(toks, s0.pos + 1), toks, RPar, n, s0, s, Now());
      } else if t == TOp(Minus) || t == TNot {
        n := ParseUnary();
      } else {
        Fail();
        n := NewNode(NNum);
        BadStep(n, s0, Now());
      }
    }

    /** A name is a variable, or a call when a parenthesis follows. */
    method ParseName() returns (n: nat)
      requires Valid() && Head().TIdent?
      modifies `pos, `count, `hadError, nodes
      ensures Valid() && n < MAX_NODES && pos >= old(pos) && count >= old(count)
      ensures Outcome(Primary(toks, old(pos)), n, old(Now()), Now())
      decreases Rest(), 0
    {
      hide Args, Expr, CallAt, Outcome, Binop, BinLoop, BinPrec, Layout, Size, Root;
      ghost var s0, r := Now(), Primary(toks, pos);
      var t := Head();
      pos := pos + 1;
      if Head() == LPar {
        pos := pos + 1;
        ghost var s1 := Now();
        n := ParseCall(t.name);
        Earlier(r, n, s1, s0, Now());
      } else {
        n := NewNode(NVar);
        SetRow(n, Row(n).(name := t.name));
        LeafStep(r.t, n, s0, Now());
      }
    }

    method ParseUnary() returns (n: nat)
      requires Valid() && (Head() == TOp(Minus) || Head() == TNot)
      modifies `pos, `count, `hadError, nodes
      ensures Valid() && n < MAX_NODES && pos >= old(pos) && count >= old(count)
      ensures Outcome(Primary(toks, old(pos)), n, old(Now()), Now())
      decreases Rest(), 0
    {
      hide Args, Expr, CallAt, Outcome, Primary, Binop, BinLoop, BinPrec, Layout, Size, Root;
      ghost var s0, e := Now(), Primary(toks, pos + 1);
      var t := Head();
      UnaryParse(toks, pos);
      pos := pos + 1;
      n := NewNode(NUn);
      SetRow(n, Row(n).(op := t));
      ghost var s1 := Now();
      var c := ParsePrimary();
      ghost var s2 := Now();
      SetRow(n, Row(n).(c0 := c));
      UnStep(if t == TNot then Not else Neg, e, n, c, s0, s1, s2, Now());
    }

    method ParseExpr() returns (n: nat)
      requires Valid()
      modifies `pos, `count, `hadError, nodes
      ensures Valid() && n < MAX_NODES && pos >= old(pos) && count >= old(count)
      ensures Outcome(Expr(toks, old(pos)), n, old(Now()), Now())
      decreases Rest(), 3
    {
      hide Binop, Primary, Args, CallAt, Outcome;
      ghost var s0, l := Now(), Binop(toks, pos, 1);
      n := ParseBinop(1);
      ghost var s1 := Now();
      AfterOk(l, n, s0, s1);
      var t := Head();
      if !t.TAssign? {
        NoAssign(toks, l, n, s0, s1, s1);
        return;
      }
      if Row(n).kind != NVar {
        Fail();
        NoAssign(toks, l, n, s0, s1, Now());
        return;
      }
      ghost var e := Expr(toks, pos + 1);
      pos := pos + 1;
      var rhs := ParseExpr();
      ghost var s2 := Now();
      var lhs := n;
      n := NewNode(NAssign);
      SetRow(n, Row(n).(op := t, c0 := lhs, c1 := rhs));
      AssignStep(toks, t.aop, l, e, lhs, rhs, n, s0, s1, s2, Now());
    }

    method ParseBinop(prec: nat) returns (lhs: nat)
      requires Valid() && prec > 0
      modifies `pos, `count, `hadError, nodes
      ensures Valid() && lhs < MAX_NODES && pos >= old(pos) && count >= old(count)
      ensures Outcome(Binop(toks, old(pos), prec), lhs, old(Now()), Now())
      decreases Rest(), 2
    {
      hide Primary, Args, CallAt, Expr, Outcome, BinOpen, Binop, BinLoop, BinPrec;
      ghost var s0, l := Now(), Primary(toks, pos);
      lhs := ParsePrimary();
      ghost var left := if l.Ok? then l.t else Break;
      BinStart(toks, prec, l, lhs, s0, Now());
      while TokPrec(Head()) >= prec
        invariant Valid() && lhs < MAX_NODES && pos >= s0.pos && count >= old(count)
        invariant BinOpen(toks, prec, left, lhs, s0, Now())
        decreases Rest()
      {
        ghost var s1 := Now();
        var op := Head();
        pos := pos + 1;
        var rhs := ParseBinop(TokPrec(op) + 1);
        ghost var s2, e := Now(), Binop(toks, s1.pos + 1, BinPrec(op.op) + 1);
        var n := NewNode(NBin);
        SetRow(n, Row(n).(op := op, c0 := lhs, c1 := rhs));
        BinStep(toks, prec, op.op, left, e, lhs, rhs, n, s0, s1, s2, Now());
        lhs := n;
        left := Bin(op.op, left, if e.Ok? then e.t else Break);
      }
      BinEnd(toks, prec, left, lhs, s0, Now());
    }

    /** Link a tree just entered to the end of the list on row `n`. */
    method Chain(n: nat, prev: int, a: nat)
      requires Valid() && n < MAX_NODES && -1 <= prev < MAX_NODES
      modifies nodes
      ensures Now() == if (if prev < 0 then n else prev) < count then old(Now()).(table := Chained(old(Now()).table, n,
          prev, a)) else old(Now())
    {
      if prev < 0 {
        SetRow(n, Row(n).(c0 := a));
      } else {
        SetRow(prev, Row(prev).(next := a));
      }
    }

    /** One more argument, entered and linked, and the comma behind it if there is one. */
    method ParseArg(ghost name: string, n: nat, prev: int, ghost argi: nat, ghost d: Trees, ghost s0: Snap)
      returns (a: nat, comma: bool)
      requires Valid() && n < MAX_NODES && -1 <= prev < MAX_NODES && Head() != RPar && !hadError
      requires CallOpen(toks, name, d, n, prev, argi, true, s0, Now())
      modifies `pos, `count, `hadError, nodes
      ensures Valid() && a < MAX_NODES && pos >= old(pos) && count >= old(count) && (comma ==> Rest() < old(Rest()))
      ensures var e := Expr(toks, old(pos));
              CallOpen(toks, name, Snoc(d, if e.Ok? then e.t else Break), n, a, argi + 1, comma, s0, Now())
      decreases Rest(), 4
    {
      hide Args, Expr, CallAt, Outcome, CallOpen, Chained, Snoc, Primary, Binop, BinLoop, BinPrec, Layout, Size, Root;
      ghost var s1, e := Now(), Expr(toks, pos);
      a := ParseExpr();
      ghost var s2 := Now();
      Chain(n, prev, a);
      comma := Accept(Comma);
      CallStep(toks, name, d, e, n, prev, argi, a, s0, s1, s2, Now(), comma);
    }

    /** The rest of a call, behind its opening parenthesis. */
    method ParseCall(name: string) returns (n: nat)
      requires Valid()
      modifies `pos, `count, `hadError, nodes
      ensures Valid() && n < MAX_NODES && pos >= old(pos) && count >= old(count)
      ensures Outcome(CallAt(toks, old(pos), name), n, old(Now()), Now())
      decreases Rest(), 5
    {
      hide Args, Expr, CallAt, Outcome, CallOpen, Chained, Snoc, Primary, Binop, BinLoop, BinPrec, Layout, Size, Root;
      ghost var s0 := Now();
      n := NewNode(NCall);
      SetRow(n, Row(n).(name := name));
      ghost var done, more := Nil, true;
      var prev, argi: nat := -1, 0;
      CallStart(toks, name, n, s0, Now());
      while Head() != RPar && !hadError
        invariant Valid() && pos >= s0.pos && -1 <= prev < MAX_NODES && count >= old(count)
        invariant more && CallOpen(toks, name, done, n, prev, argi, true, s0, Now())
        decreases Rest()
      {
        ghost var e := Expr(toks, pos);
        var a, comma := ParseArg(name, n, prev, argi, done, s0);
        prev := a;
        argi := argi + 1;
        done := Snoc(done, if e.Ok? then e.t else Break);
        if !comma {
          more := false;
          break;
        }
      }
      ghost var s3 := Now();
      Expect(RPar);
      SetRow(n, Row(n).(ival := argi));
      CallEnd(toks, name, done, n, prev, argi, more, s0, s3, Now());
    }

    // ---- statements ----

    method ParseStmt() returns (n: nat)
      requires Valid()
      modifies `pos, `count, `hadError, nodes
      ensures Valid() && n < MAX_NODES && pos >= old(pos) && count >= old(count)
      ensures Outcome(Stmt(toks, old(pos)), n, old(Now()), Now())
      decreases Rest(), 1
    {
      hide Expr, Outcome, Layout, Size, Root, Paren, ForHead, BlockAt, InitAt, Did;
      ghost var s0 := Now();
      var t := Head();
      StmtIs(toks, pos);
      hide Stmt;
      if t == LBrace {
        pos := pos + 1;
        ghost var s1 := Now();
        n := ParseBlock();
        Earlier(Stmt(toks, s0.pos), n, s1, s0, Now());
      } else if t == KwIf {
        n := ParseIf();
      } else if t == KwWhile {
        n := ParseWhile();
      } else if t == KwFor {
        n := ParseFor();
      } else if t == KwReturn {
        n := ParseReturn();
      } else if t == KwBreak || t == KwCont {
        n := ParseJump();
      } else if t == KwInt {
        n := ParseDecl();
      } else {
        n := ParseExprStmt();
      }
    }

    method ParseParen() returns (n: nat)
      requires Valid()
      modifies `pos, `count, `hadError, nodes
      ensures Valid() && n < MAX_NODES && pos >= old(pos) && count >= old(count)
      ensures Outcome(Paren(toks, old(pos)), n, old(Now()), Now())
    {
      hide Expr, Outcome, Layout, Size, Root;
      ghost var s0 := Now();
      Expect(LPar);
      ghost var s1 := Now();
      n := ParseExpr();
      ghost var s2 := Now();
      Expect(RPar);
      ParenStep(toks, n, s0, s1, s2, Now());
    }

    method ParseIf() returns (n: nat)
      requires Valid() && Head() == KwIf
      modifies `pos, `count, `hadError, nodes
      ensures Valid() && n < MAX_NODES && pos >= old(pos) && count >= old(count)
      ensures Outcome(Stmt(toks, old(pos)), n, old(Now()), Now())
      decreases Rest(), 0
    {
      hide Expr, Outcome, Layout, Size, Root, Paren, Did, OptOutcome, Stmt;
      ghost var s0 := Now();
      pos := pos + 1;
      ghost var sp := Now();
      var cond := ParseParen();
      ghost var s1 := Now();
      var yes := ParseStmt();
      ghost var s2 := Now();
      var no: int := -1;
      var has := Accept(KwElse);
      ghost var s3 := Now();
      if has {
        var x := ParseStmt();
        ElseStep(toks, x, s2, s3, Now());
        no := x;
      } else {
        OptIsNone(s2.pos, s2);
      }
      ghost var s4 := Now();
      n := NewNode(NIf);
      SetRow(n, Row(n).(c0 := cond, c1 := yes, c2 := no));
      IfStep(toks, Paren(toks, sp.pos), Stmt(toks, s1.pos), ElseAt(toks, s2.pos), cond, yes, no, n, s0, sp, s1, s2, s4,
          Now());
    }

    method ParseWhile() returns (n: nat)
      requires Valid() && Head() == KwWhile
      modifies `pos, `count, `hadError, nodes
      ensures Valid() && n < MAX_NODES && pos >= old(pos) && count >= old(count)
      ensures Outcome(Stmt(toks, old(pos)), n, old(Now()), Now())
      decreases Rest(), 0
    {
      hide Expr, Outcome, Layout, Size, Root, Paren, Did, Stmt;
      ghost var s0 := Now();
      pos := pos + 1;
      ghost var sp := Now();
      var cond := ParseParen();
      ghost var s1 := Now();
      var body := ParseStmt();
      ghost var s2 := Now();
      n := NewNode(NWhile);
      SetRow(n, Row(n).(c0 := cond, c1 := body));
      WhileStep(toks, Paren(toks, sp.pos), Stmt(toks, s1.pos), cond, body, n, s0, sp, s1, s2, Now());
    }

    /** An expression, or -1 before `stop`; then `stop`. */
    method ParseOptional(stop: Token) returns (i: int)
      requires Valid() && stop != Eof
      modifies `pos, `count, `hadError, nodes
      ensures Valid() && -1 <= i < MAX_NODES && pos >= old(pos) && count >= old(count)
      ensures GuardOutcome(toks, Optional(toks, old(pos), stop), i, stop, old(Now()), Now())
    {
      hide Expr, Outcome, Did, OptOutcome, GuardOutcome, Step;
      ghost var s0 := Now();
      i := -1;
      if Head() != stop {
        var e := ParseExpr();
        OptIs(Expr(toks, s0.pos), e, s0, Now());
        i := e;
      } else {
        OptIsNone(s0.pos, s0);
      }
      ghost var s1 := Now();
      Expect(stop);
      ExpectDid(toks, stop, s1, Now());
      GuardedDid(toks, Optional(toks, s0.pos, stop), i, s0, s1, Now(), stop);
    }

    /** The initial part of a for loop: a declaration, an expression or nothing; then the semicolon. */
    method ParseForStart() returns (i: int)
      requires Valid()
      modifies `pos, `count, `hadError, nodes
      ensures Valid() && -1 <= i < MAX_NODES && pos >= old(pos) && count >= old(count)
      ensures GuardOutcome(toks, ForStart(toks, old(pos)), i, Semi, old(Now()), Now())
    {
      hide Expr, Outcome, Did, OptOutcome, GuardOutcome, Step, DeclAt, Optional;
      ghost var s0 := Now();
      var decl := Accept(KwInt);
      if !decl {
        i := ParseOptional(Semi);
        return;
      }
      ghost var sp := Now();
      var ok, name, init := ParseInit();
      ghost var s1 := Now();
      var n: nat;
      if ok {
        n := EnterDecl(name, init);
      } else {
        n := NewNode(NNum);
      }
      ghost var s2 := Now();
      ForDeclStep(toks, ok, name, init, n, s0, sp, s1, s2);
      i := n;
      Expect(Semi);
      ExpectDid(toks, Semi, s2, Now());
      GuardedDid(toks, ForStart(toks, s0.pos), i, s0, s2, Now(), Semi);
    }

    /** The parenthesis, the three parts and their separators. */
    method ParseForHead() returns (start: int, test: int, post: int)
      requires Valid()
      modifies `pos, `count, `hadError, nodes
      ensures Valid() && pos >= old(pos) && count >= old(count)
      ensures -1 <= start < MAX_NODES && -1 <= test < MAX_NODES && -1 <= post < MAX_NODES
      ensures HeadOutcome(ForHead(toks, old(pos)), start, test, post, old(Now()), Now())
    {
      hide Expr, Outcome, ForHead, Did, HeadOutcome, GuardOutcome, Step, Optional, ForStart;
      ghost var sp := Now();
      Expect(LPar);
      ghost var h1 := Now();
      ExpectDid(toks, LPar, sp, h1);
      start := ParseForStart();
      ghost var h2 := Now();
      test := ParseOptional(Semi);
      ghost var h3 := Now();
      post := ParseOptional(RPar);
      HeadStep(toks, ForStart(toks, h1.pos), Optional(toks, h2.pos, Semi), Optional(toks, h3.pos, RPar), start, test,
          post,
               sp, h1, h2, h3, Now());
    }

    method ParseFor() returns (n: nat)
      requires Valid() && Head() == KwFor
      modifies `pos, `count, `hadError, nodes
      ensures Valid() && n < MAX_NODES && pos >= old(pos) && count >= old(count)
      ensures Outcome(Stmt(toks, old(pos)), n, old(Now()), Now())
      decreases Rest(), 0
    {
      hide Expr, Outcome, Layout, Size, Root, ForHead, Did, Stmt, HeadOutcome, GuardOutcome, Step, Optional, ForStart;
      ghost var s0 := Now();
      pos := pos + 1;
      ghost var sp := Now();
      var start, test, post := ParseForHead();
      ghost var s1 := Now();
      var body := ParseStmt();
      ghost var s2 := Now();
      n := NewNode(NFor);
      SetRow(n, Row(n).(c0 := start, c1 := test, c2 := post, c3 := body));
      ForStep(toks, ForHead(toks, sp.pos), Stmt(toks, s1.pos), start, test, post, body, n, s0, sp, s1, s2, Now());
    }

    method ParseReturn() returns (n: nat)
      requires Valid() && Head() == KwReturn
      modifies `pos, `count, `hadError, nodes
      ensures Valid() && n < MAX_NODES && pos >= old(pos) && count >= old(count)
      ensures Outcome(Stmt(toks, old(pos)), n, old(Now()), Now())
    {
      hide Expr, Outcome, Layout, Size, Root, Did, OptOutcome;
      ghost var s0 := Now();
      pos := pos + 1;
      n := NewNode(NReturn);
      ghost var s1 := Now();
      var bare := Accept(Semi);
      if bare {
        BareReturn(toks, n, s0, s1, Now());
        return;
      }
      var e := ParseExpr();
      ghost var s2 := Now();
      SetRow(n, Row(n).(c0 := e));
      Expect(Semi);
      ReturnStep(toks, n, e, s0, s1, s2, Now());
    }

    method ParseJump() returns (n: nat)
      requires Valid() && (Head() == KwBreak || Head() == KwCont)
      modifies `pos, `count, `hadError, nodes
      ensures Valid() && n < MAX_NODES && pos >= old(pos) && count >= old(count)
      ensures Outcome(Stmt(toks, old(pos)), n, old(Now()), Now())
    {
      hide Expr, Outcome, Layout, Size, Root;
      ghost var s0 := Now();
      var t := Head();
      pos := pos + 1;
      Expect(Semi);
      ghost var s1 := Now();
      n := NewNode(if t == KwBreak then NBreak else NCont);
      JumpStep(toks, n, s0, s1, Now());
    }

    /** Behind `int`: a name and, after an equals sign, an initial value (-1: none). */
    method ParseInit() returns (ok: bool, name: string, init: int)
      requires Valid()
      modifies `pos, `count, `hadError, nodes
      ensures Valid() && -1 <= init < MAX_NODES && pos >= old(pos) && count >= old(count)
      ensures OptOutcome(InitAt(toks, old(pos)), init, old(Now()), Now()) && (ok <==> Peek(toks, old(pos)).TIdent?)
      ensures ok ==> Peek(toks, old(pos)) == TIdent(name)
    {
      hide Expr, Outcome, Layout, Size, Root, Did, OptOutcome;
      ghost var s0 := Now();
      var t := Head();
      pos := pos + 1;
      if !t.TIdent? {
        Fail();
        NoInit(toks, s0, Now());
        return false, "", -1;
      }
      ok, name, init := true, t.name, -1;
      ghost var s1 := Now();
      var has := Accept(TAssign(Set));
      if has {
        ghost var s2 := Now();
        var e := ParseExpr();
        init := e;
        SomeInit(toks, e, s0, s2, Now());
      } else {
        BareInit(toks, s0, s1);
      }
    }

    /** The rows of a declaration: the assignment, the marked variable and, where no value is given, a zero. */
    method EnterDecl(name: string, init: int) returns (n: nat)
      requires Valid() && -1 <= init < MAX_NODES
      modifies `count, `hadError, nodes
      ensures Valid() && n < MAX_NODES && count >= old(count)
      ensures var k := if init < 0 then 3 else 2;
        && hadError == (old(hadError) || old(count) + k > MAX_NODES)
        && (!hadError ==> n == old(count) && Now().table == old(Now().table) + EnteredDecl(name, init, n))
    {
      n := NewNode(NAssign);
      var v := NewNode(NVar);
      SetRow(v, Row(v).(name := name, ival := 1));
      var rhs := init;
      if init < 0 {
        rhs := NewNode(NNum);
      }
      SetRow(n, Row(n).(op := TAssign(Set), c0 := v, c1 := rhs));
    }

    method ParseDecl() returns (n: nat)
      requires Valid() && Head() == KwInt
      modifies `pos, `count, `hadError, nodes
      ensures Valid() && n < MAX_NODES && pos >= old(pos) && count >= old(count)
      ensures Outcome(Stmt(toks, old(pos)), n, old(Now()), Now())
    {
      hide Expr, Outcome, Layout, Size, Root, OptOutcome, Did, EnteredDecl;
      ghost var s0 := Now();
      pos := pos + 1;
      ghost var sp := Now();
      var ok, name, init := ParseInit();
      ghost var s1 := Now();
      if !ok {
        n := NewNode(NNum);
        DeclRefused(toks, init, n, s0, sp, s1, Now());
        return;
      }
      Expect(Semi);
      ghost var s2 := Now();
      n := EnterDecl(name, init);
      DeclDone(toks, name, init, n, s0, sp, s1, s2, Now());
    }

    method ParseExprStmt() returns (n: nat)
      requires Valid() && Stmt(toks, pos) == ExprStmtAt(toks, pos)
      modifies `pos, `count, `hadError, nodes
      ensures Valid() && n < MAX_NODES && pos >= old(pos) && count >= old(count)
      ensures Outcome(Stmt(toks, old(pos)), n, old(Now()), Now())
    {
      hide Expr, Outcome, Layout, Size, Root, Stmt;
      ghost var s0 := Now();
      var e := ParseExpr();
      ghost var s1 := Now();
      Expect(Semi);
      ghost var s2 := Now();
      n := NewNode(NExprStmt);
      SetRow(n, Row(n).(c0 := e));
      ExprStmtStep(toks, e, n, s0, s1, s2, Now());
    }

    /** The rest of a block, behind its opening brace. */
    method ParseBlock() returns (n: nat)
      requires Valid()
      modifies `pos, `count, `hadError, nodes
      ensures Valid() && n < MAX_NODES && pos >= old(pos) && count >= old(count)
      ensures Outcome(BlockAt(toks, old(pos)), n, old(Now()), Now())
      decreases Rest(), 3
    {
      hide Stmt, Stmts, BlockAt, Outcome, BlockOpen, Chained, Snoc, Layout, Size, Root;
      ghost var s0 := Now();
      n := NewNode(NBlock);
      ghost var done := Nil;
      var last := -1;
      BlockStart(toks, n, s0, Now());
      while Head() != RBrace && Head() != Eof
        invariant Valid() && pos >= s0.pos && -1 <= last < MAX_NODES && count >= old(count)
        invariant BlockOpen(toks, done, n, last, s0, Now())
        decreases Rest()
      {
        ghost var s1 := Now();
        var a := ParseStmt();
        ghost var s2, e := Now(), Stmt(toks, s1.pos);
        Chain(n, last, a);
        BlockStep(toks, done, e, n, last, a, s0, s1, s2, Now());
        done := Snoc(done, if e.Ok? then e.t else Break);
        last := a;
        if hadError {
          BlockFails(toks, done, n, last, s0, Now());
          return;
        }
        StmtMoves(e, toks, s1, s2, a);
      }
      ghost var s3 := Now();
      Expect(RBrace);
      BlockEnd(toks, done, n, last, s0, s3, Now());
    }

    // ---- functions ----

    /** Names up to the closing parenthesis; those behind the eighth are read and dropped. */
    method ParseParams() returns (names: seq<string>)
      requires Valid()
      modifies `pos, `hadError
      ensures Valid() && pos >= old(pos)
      ensures ParamsOpen(toks, names, old(Now()), Now(), false)
    {
      hide Params;
      ghost var s0 := Now();
      names := [];
      ghost var more := true;
      while Head() != RPar && !hadError
        invariant Valid() && pos >= s0.pos && |names| <= MAX_PARAMS
        invariant more && ParamsOpen(toks, names, s0, Now(), true)
        decreases Rest()
      {
        ParamsStep(toks, pos, names);
        var int_ := Accept(KwInt);
        var t := Head();
        pos := pos + 1;
        if !t.TIdent? {
          Fail();
          return;
        }
        if |names| < MAX_PARAMS {
          names := names + [t.name];
        }
        var comma := Accept(Comma);
        if !comma {
          more := false;
          break;
        }
      }
      if more {
        ParamsDone(toks, pos, names);
      }
    }

    /** A function, behind its result type. */
    method ParseFunc()
      requires Valid()
      modifies `pos, `count, `hadError, `funcs, nodes
      ensures Valid() && pos >= old(pos)
      ensures FuncOutcome(FuncAt(toks, old(pos)), old(Now()), Now(), old(funcs), funcs)
    {
      hide Params, BlockAt, Layout, Root, Size, Outcome, ParamsOpen, FuncOutcome, FuncAt;
      ghost var s0, fs0 := Now(), funcs;
      if |funcs| >= MAX_FUNCS {
        Fail();
        FuncRefused(toks, s0, Now(), fs0, funcs);
        return;
      }
      var t := Head();
      pos := pos + 1;
      if !t.TIdent? {
        Fail();
        NoName(toks, s0.pos);
        FuncRefused(toks, s0, Now(), fs0, funcs);
        return;
      }
      Expect(LPar);
      ghost var s1 := Now();
      var names := ParseParams();
      ghost var s2 := Now();
      Expect(RPar);
      Expect(LBrace);
      ghost var s3 := Now();
      var body := ParseBlock();
      funcs := funcs + [FuncRow(t.name, names, body)];
      FuncStep(toks, names, body, s0, s1, s2, s3, Now(), fs0, funcs, t.name);
    }

    /** A whole source: parsing succeeds exactly if it is a sequence of functions and they fit the tables, and the
        tables then hold exactly these functions. */
    method ParseProgram() returns (ghost fs: seq<Func>)
      requires Valid() && Now() == Snap(0, [], false) && funcs == []
      modifies `pos, `count, `hadError, `funcs, nodes
      ensures Valid() && (!hadError <==> ProgramFits(Program(toks, 0, [])))
      ensures !hadError ==>
        Program(toks, 0, []) == OkProgram(fs) && Now().table == ProgramRows(fs) && funcs == FuncTable(fs)
    {
      hide FuncAt, Program, ProgramRows, FuncTable, FuncOutcome, ProgramOpen, ProgramFits;
      fs := [];
      ProgramStart(toks);
      while Head() != Eof && !hadError
        invariant Valid() && ProgramOpen(toks, fs, funcs, Now())
        decreases Rest()
      {
        ghost var s0, rows := Now(), funcs;
        if Head() != KwInt && Head() != KwVoid {
          Fail();
          ProgramRefused(toks, fs, rows, s0, Now());
          break;
        }
        pos := pos + 1;
        ghost var s1, f := Now(), FuncAt(toks, pos);
        ParseFunc();
        ProgramStep(toks, fs, rows, s0, s1, Now(), funcs);
        fs := if f.OkFunc? then fs + [f.f] else fs;
      }
      ProgramEnd(toks, fs, funcs, Now());
    }
  }
}
