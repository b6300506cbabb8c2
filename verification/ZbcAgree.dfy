/** For programs without the interpreter's quirks, the flag-driven walk is the structured semantics. */
module ZbcAgreement {
  import opened ZbcSyntax
  import opened ZbcEval

  /** The innermost loop around a statement; an open for loop has no last part. */
  datatype Loop = NoLoop | InWhile | InFor | InOpenFor

  function ForKind(p: Opt): Loop { if p.None? then InOpenFor else InFor }

  /** Statements in which continue stands only in for loops, and a for loop with a last part is left only by its
      condition: it has no break and, where `ret` is false, no return. */
  predicate Plain(t: Tree, loop: Loop, ret: bool) {
    match t
    case Decl(_, i) => OptExpr(i)
    case If(c, y, n) => IsExpr(c) && Plain(y, loop, ret) && (n.Some? ==> Plain(n.t, loop, ret))
    case While(c, b) => IsExpr(c) && Plain(b, InWhile, ret)
    case For(i, c, p, b) =>
      (i.Some? ==> IsExpr(i.t) || (i.t.Decl? && OptExpr(i.t.init))) && OptExpr(c) && OptExpr(p)
      && Plain(b, ForKind(p), ret && p.None?)
    case Return(o) => ret && OptExpr(o)
    case Break => loop.InWhile? || loop.InOpenFor?
    case Cont => loop.InFor? || loop.InOpenFor?
    case Block(ss) => AllPlain(ss, loop, ret)
    case ExprStmt(e) => IsExpr(e)
    case _ => false
  }

  predicate AllPlain(ss: Trees, loop: Loop, ret: bool) {
    ss.Cons? ==> Plain(ss.head, loop, ret) && AllPlain(ss.tail, loop, ret)
  }

  /** A call of printf, whose format is not part of this model. */
  predicate Formats(t: Tree) {
    match t
    case Assign(_, _, rhs) => Formats(rhs)
    case Bin(_, l, r) => Formats(l) || Formats(r)
    case Un(_, e) => Formats(e)
    case Call(n, args) => n == "printf" || AnyFormats(args)
    case Decl(_, i) => i.Some? && Formats(i.t)
    case If(c, y, n) => Formats(c) || Formats(y) || (n.Some? && Formats(n.t))
    case While(c, b) => Formats(c) || Formats(b)
    case For(i, c, p, b) =>
      (i.Some? && Formats(i.t)) || (c.Some? && Formats(c.t)) || (p.Some? && Formats(p.t)) || Formats(b)
    case Return(o) => o.Some? && Formats(o.t)
    case Block(ss) => AnyFormats(ss)
    case ExprStmt(e) => Formats(e)
    case _ => false
  }

  predicate AnyFormats(ts: Trees) { ts.Cons? && (Formats(ts.head) || AnyFormats(ts.tail)) }

  predicate PlainProgram(fs: seq<Func>) {
    forall k | 0 <= k < |fs| :: Plain(fs[k].body, NoLoop, true) && !Formats(fs[k].body)
  }

  // ---- what agrees with what ----

  ghost predicate Agrees(cells: seq<Cell>, env: Env) {
    && env.used == |cells|
    && forall n: string ::
         (n in env.vars <==> Find(cells, n) >= 0) && (n in env.vars ==> env.vars[n] == cells[Find(cells, n)].value)
  }

  predicate Calm(st: State) { !st.err && !st.ret && !st.brk && !st.cont }

  /** The frames `base` below are untouched, the top frame holds the variables, and the world is the same. */
  ghost predicate Matches(st: State, env: Env, w: World, base: seq<seq<Cell>>) {
    && |st.scopes| == |base| + 1 && st.scopes[..|base|] == base && Agrees(st.scopes[|base|], env)
    && st.out == w.out && st.keys == w.keys && !st.err
  }

  predicate Ends(e: Ending, st: State, v: int) {
    match e
    case Value(x) => Calm(st) && v == x
    case NoValue => Calm(st)
    case Normal => Calm(st)
    case Broken => st.brk && !st.ret && !st.cont
    case Continued => st.cont && !st.ret && !st.brk
    case Returned(x) => st.ret && st.rv == x && !st.brk && !st.cont
    case ReturnedNothing => st.ret && !st.brk && !st.cont
  }

  /** The walk does what the meaning says: a defined meaning exactly, an error as an error, no end as no end. */
  ghost predicate Same(m: Meaning, r: Walk, base: seq<seq<Cell>>) {
    match m
    case Done(e, env, w) => r.Walk? && Matches(r.st, env, w, base) && Ends(e, r.st, r.v)
    case Failed => r.Walk? ==> r.st.err
    case Endless => r.OutOfFuel?
    case Stuck => true
  }

  predicate IsValue(m: Meaning) { m.Done? ==> m.e.Value? || m.e.NoValue? }

  predicate Allowed(m: Meaning, loop: Loop, ret: bool) {
    m.Done? ==>
      && !m.e.Value? && !m.e.NoValue? && (m.e.Broken? ==> loop.InWhile? || loop.InOpenFor?)
      && (m.e.Continued? ==> loop.InFor? || loop.InOpenFor?)
      && (m.e.Returned? || m.e.ReturnedNothing? ==> ret)
  }

  // ---- variables ----

  lemma FindAppend(cells: seq<Cell>, c: Cell, n: string)
    ensures Find(cells + [c], n) == if n == c.name then |cells| else Find(cells, n)
  {
    assert (cells + [c])[..|cells|] == cells;
  }

  lemma {:induction false} FindUpdate(cells: seq<Cell>, k: nat, v: int, n: string)
    requires k < |cells|
    ensures Find(cells[k := Cell(cells[k].name, v)], n) == Find(cells, n)
  {
    var d, m := cells[k := Cell(cells[k].name, v)], |cells| - 1;
    if k == m {
      assert d[..m] == cells[..m];
    } else {
      assert d[..m] == cells[..m][k := Cell(cells[k].name, v)];
      FindUpdate(cells[..m], k, v, n);
    }
  }

  lemma AssignAgrees(cells: seq<Cell>, env: Env, n: string, v: int)
    requires Agrees(cells, env) && n in env.vars
    ensures Agrees(cells[Find(cells, n) := Cell(n, v)], env.(vars := env.vars[n := v]))
  {
    var k := Find(cells, n);
    forall m: string
      ensures Find(cells[k := Cell(n, v)], m) == Find(cells, m)
    {
      FindUpdate(cells, k, v, m);
    }
  }

  lemma DeclareAgrees(cells: seq<Cell>, env: Env, n: string, v: int)
    requires Agrees(cells, env)
    ensures Agrees(cells + [Cell(n, v)], Env(env.vars[n := v], env.used + 1))
  {
    forall m: string
      ensures Find(cells + [Cell(n, v)], m) == if m == n then |cells| else Find(cells, m)
    {
      FindAppend(cells, Cell(n, v), m);
    }
  }

  /** Binding parameters one after the other, the last of equal names being the one that counts. */
  lemma {:induction false} BindAgrees(params: seq<string>, vals: seq<int>, cells: seq<Cell>, env: Env)
    requires Agrees(cells, env)
    ensures Agrees(cells + Bind(params, vals), Env(Frame(params, vals, env.vars), env.used + Min(|params|, |vals|)))
    decreases |params|
  {
    hide Agrees;
    if params == [] || vals == [] {
      assert cells + [] == cells;
    } else {
      var c := Cell(params[0], vals[0]);
      DeclareAgrees(cells, env, params[0], vals[0]);
      BindAgrees(params[1..], vals[1..], cells + [c], Env(env.vars[params[0] := vals[0]], env.used + 1));
      assert cells + [c] + Bind(params[1..], vals[1..]) == cells + Bind(params, vals);
    }
  }

  /** Assigning to a variable, or declaring it. */
  lemma StoreSame(op: AssignOp, n: string, decl: bool, st: State, v: int, env: Env, w: World, base: seq<seq<Cell>>)
    requires Matches(st, env, w, base) && Calm(st) && (decl ==> op == Set)
    ensures var r := Store(op, n, decl, st, v);
      && (if decl then Same(Declared(n, v, env, w), r, base) else Same(Assigned(op, n, v, env, w), r, base))
  {
    hide AssignValue, Find, Agrees;
    var cells := Top(st);
    TopAgrees(cells, env, n);
    if n in env.vars {
      AssignAgrees(cells, env, n, AssignValue(op, env.vars[n], v));
      NamedValue(cells, env, n);
      SetAssigns(v, env.vars[n]);
    } else if decl && |cells| < MAX_VARS {
      DeclareAgrees(cells, env, n, v);
    }
  }

  lemma TopAgrees(cells: seq<Cell>, env: Env, n: string)
    requires Agrees(cells, env)
    ensures (n in env.vars <==> Find(cells, n) >= 0) && env.used == |cells|
  {
  }

  lemma NamedValue(cells: seq<Cell>, env: Env, n: string)
    requires Agrees(cells, env) && n in env.vars
    ensures Find(cells, n) >= 0 && env.vars[n] == cells[Find(cells, n)].value
  {
  }

  lemma SetAssigns(v: int, was: int)
    ensures AssignValue(Set, was, v) == v
  {
  }

  // ---- after an error ----

  lemma {:induction false} ErrArgs(fs: seq<Func>, args: Trees, st: State, room: nat, fuel: nat)
    requires st.err
    ensures var a := EvalArgs(fs, args, st, room, fuel); a.Values? && a.st == st
  {
    if args.Cons? && room > 0 { ErrArgs(fs, args.tail, st, room - 1, fuel); }
  }

  lemma ErrCall(fs: seq<Func>, t: Tree, vals: seq<int>, st: State, fuel: nat)
    requires st.err && t.Call?
    ensures var r := CallFunction(fs, t, vals, st, fuel); r.Walk? ==> r.st.err
  {
  }

  lemma ErrEval(fs: seq<Func>, t: Tree, st: State, fuel: nat)
    requires st.err
    ensures Eval(fs, t, st, fuel) == Walk(st, 0)
  {
  }

  lemma ErrStore(op: AssignOp, n: string, decl: bool, st: State, v: int)
    requires st.err
    ensures Store(op, n, decl, st, v).st.err
  {
  }

  // ---- the agreement ----

  /** A walk from `st` agrees with the meaning in `env` and `w`. */
  ghost predicate Start(fs: seq<Func>, st: State, env: Env, w: World, base: seq<seq<Cell>>) {
    PlainProgram(fs) && Matches(st, env, w, base) && Calm(st)
  }

  /** An expression: its value is that of the meaning, and no flag is set. */
  lemma {:induction false} SameExpr(fs: seq<Func>, t: Tree, st: State, env: Env, w: World, base: seq<seq<Cell>>,
                                    fuel: nat)
    requires IsExpr(t) && Start(fs, st, env, w, base)
    ensures var m := Sem(fs, t, env, w, |base| + 1, fuel);
            IsValue(m) && Same(m, Eval(fs, t, st, fuel), base)
    decreases fuel, t, 2
  {
    hide Agrees, PlainProgram, BinValue, UnValue, AssignValue, Store, Assigned, EvalArgs, SemArgs, CallFunction,
         SemCall;
    match t
    case Num(_) =>
    case Str(_) =>
    case Var(n) => VarSame(st, env, n);
    case Assign(op, n, rhs) =>
      SameExpr(fs, rhs, st, env, w, base, fuel);
      var r, a := Sem(fs, rhs, env, w, |base| + 1, fuel), Eval(fs, rhs, st, fuel);
      if r.Done? && r.e.Value? {
        StoreSame(op, n, false, a.st, a.v, r.env, r.w, base);
      } else if a.Walk? && a.st.err {
        ErrStore(op, n, false, a.st, a.v);
      }
    case Bin(op, l, r) =>
      SameExpr(fs, l, st, env, w, base, fuel);
      var m, a := Sem(fs, l, env, w, |base| + 1, fuel), Eval(fs, l, st, fuel);
      if m.Done? && m.e.Value? {
        SameExpr(fs, r, a.st, m.env, m.w, base, fuel);
      } else if a.Walk? && a.st.err {
        ErrEval(fs, r, a.st, fuel);
      }
    case Un(_, e) => SameExpr(fs, e, st, env, w, base, fuel);
    case Call(n, args) => CallExprSame(fs, t, st, env, w, base, fuel);
  }

  lemma VarSame(st: State, env: Env, n: string)
    requires st.scopes != [] && Agrees(Top(st), env)
    ensures n in env.vars <==> Find(Top(st), n) >= 0
    ensures n in env.vars ==> env.vars[n] == Top(st)[Find(Top(st), n)].value
  {
  }

  lemma {:induction false} CallExprSame(fs: seq<Func>, t: Tree, st: State, env: Env, w: World, base: seq<seq<Cell>>,
                                        fuel: nat)
    requires t.Call? && IsExpr(t) && Start(fs, st, env, w, base)
    ensures var m := Sem(fs, t, env, w, |base| + 1, fuel);
            IsValue(m) && Same(m, Eval(fs, t, st, fuel), base)
    decreases fuel, t, 1
  {
    hide Agrees, PlainProgram, EvalArgs, SemArgs, CallFunction, SemCall;
    if t.name != "puts" {
      SameArgs(fs, t.args, st, env, w, base, MAX_ARGS, fuel);
      var m, a := SemArgs(fs, t.args, env, w, MAX_ARGS, |base| + 1, fuel), EvalArgs(fs, t.args, st, MAX_ARGS, fuel);
      if m.DoneAll? {
        SameCall(fs, t, a.vals, a.st, m.env, m.w, base, fuel);
      } else if a.Values? && a.st.err {
        ErrCall(fs, t, a.vals, a.st, fuel);
      }
    }
  }

  ghost predicate SameAll(m: Meanings, r: Values, base: seq<seq<Cell>>) {
    match m
    case DoneAll(vals, env, w) => r.Values? && Matches(r.st, env, w, base) && Calm(r.st) && r.vals == vals
    case NotAll(Failed) => r.Values? ==> r.st.err
    case NotAll(Endless) => r.NoFuel?
    case NotAll(Stuck) => true
    case NotAll(Done(_, _, _)) => false
  }

  lemma {:induction false} SameArgs(fs: seq<Func>, args: Trees, st: State, env: Env, w: World, base: seq<seq<Cell>>,
                                    room: nat, fuel: nat)
    requires AreExprs(args) && Start(fs, st, env, w, base)
    ensures SameAll(SemArgs(fs, args, env, w, room, |base| + 1, fuel), EvalArgs(fs, args, st, room, fuel), base)
    decreases fuel, args, 3
  {
    hide Agrees, PlainProgram, Sem, Eval;
    if args.Cons? && room > 0 {
      SameExpr(fs, args.head, st, env, w, base, fuel);
      var m, a := Sem(fs, args.head, env, w, |base| + 1, fuel), Eval(fs, args.head, st, fuel);
      if m.Done? && m.e.Value? {
        SameArgs(fs, args.tail, a.st, m.env, m.w, base, room - 1, fuel);
      } else if a.Walk? && a.st.err {
        ErrArgs(fs, args.tail, a.st, room - 1, fuel);
      }
    }
  }

  /** A call runs the body on a frame of its own and leaves all frames below it alone. */
  lemma {:induction false} SameCall(fs: seq<Func>, t: Tree, vals: seq<int>, st: State, env: Env, w: World,
                                    base: seq<seq<Cell>>, fuel: nat)
    requires t.Call? && Start(fs, st, env, w, base)
    ensures Same(SemCall(fs, t, vals, env, w, |base| + 1, fuel), CallFunction(fs, t, vals, st, fuel), base)
    decreases fuel, t, 0
  {
    hide Agrees, Sem, Eval, Find, Bind, Frame;
    var k := FindFunc(fs, t.name, 0);
    if !IsNative(t.name) && k >= 0 && |base| + 1 < MAX_CALL && fuel > 0 {
      var ps := fs[k].params;
      var inner := Env(Frame(ps, vals, map[]), Min(|ps|, |vals|));
      NoneBound();
      BindAgrees(ps, vals, [], Env(map[], 0));
      assert [] + Bind(ps, vals) == Bind(ps, vals);
      var st1 := Entered(fs[k], vals, st);
      assert st1.scopes[..|st.scopes|] == st.scopes;
      SameStmt(fs, fs[k].body, st1, inner, w, st.scopes, fuel - 1, NoLoop, true);
    }
  }

  lemma NoneBound()
    ensures Agrees([], Env(map[], 0))
  {
  }

  lemma {:induction false} SameStmt(fs: seq<Func>, t: Tree, st: State, env: Env, w: World, base: seq<seq<Cell>>,
                                    fuel: nat,
                                    loop: Loop, ret: bool)
    requires Plain(t, loop, ret) && Start(fs, st, env, w, base)
    ensures var m := Sem(fs, t, env, w, |base| + 1, fuel);
            Allowed(m, loop, ret) && Same(m, Eval(fs, t, st, fuel), base)
    decreases fuel, t, 2
  {
    hide Agrees, PlainProgram, Store, Declared, EvalBlock, SemBlock, WhileLoop, SemWhile, ForLoop, SemFor, IsExpr;
    match t
    case Decl(n, i) => DeclSame(fs, t, st, env, w, base, fuel);
    case If(c, y, n) =>
      SameExpr(fs, c, st, env, w, base, fuel);
      var m, a := Sem(fs, c, env, w, |base| + 1, fuel), Eval(fs, c, st, fuel);
      if m.Done? && m.e.Value? {
        if a.v != 0 {
          SameStmt(fs, y, a.st, m.env, m.w, base, fuel, loop, ret);
        } else if n.Some? {
          SameStmt(fs, n.t, a.st, m.env, m.w, base, fuel, loop, ret);
        }
      } else if a.Walk? && a.st.err {
        ErrEval(fs, if a.v != 0 then y else if n.Some? then n.t else y, a.st, fuel);
      }
    case While(_, _) => SameWhile(fs, t, st, env, w, base, fuel, ret);
    case For(i, _, _, _) => ForSame(fs, t, st, env, w, base, fuel, loop, ret);
    case Return(o) =>
      if o.Some? { SameExpr(fs, o.t, st, env, w, base, fuel); }
    case Break =>
    case Cont =>
    case Block(ss) => SameBlock(fs, ss, st, env, w, base, fuel, loop, ret);
    case ExprStmt(e) => SameExpr(fs, e, st, env, w, base, fuel);
  }

  lemma {:induction false} DeclSame(fs: seq<Func>, t: Tree, st: State, env: Env, w: World, base: seq<seq<Cell>>,
                                    fuel: nat)
    requires t.Decl? && OptExpr(t.init) && Start(fs, st, env, w, base)
    ensures var m := Sem(fs, t, env, w, |base| + 1, fuel);
            (m.Done? ==> m.e.Normal?) && Same(m, Eval(fs, t, st, fuel), base)
    decreases fuel, t, 1
  {
    hide Agrees, PlainProgram, Store, Declared, IsExpr;
    if t.init.None? {
      StoreSame(Set, t.name, true, st, 0, env, w, base);
    } else {
      SameExpr(fs, t.init.t, st, env, w, base, fuel);
      var m, a := Sem(fs, t.init.t, env, w, |base| + 1, fuel), Eval(fs, t.init.t, st, fuel);
      if m.Done? && m.e.Value? {
        StoreSame(Set, t.name, true, a.st, a.v, m.env, m.w, base);
      } else if a.Walk? && a.st.err {
        ErrStore(Set, t.name, true, a.st, a.v);
      }
    }
  }

  lemma {:induction false} SameBlock(fs: seq<Func>, ss: Trees, st: State, env: Env, w: World, base: seq<seq<Cell>>,
                                     fuel: nat,
                                     loop: Loop, ret: bool)
    requires AllPlain(ss, loop, ret) && Start(fs, st, env, w, base)
    ensures var m := SemBlock(fs, ss, env, w, |base| + 1, fuel);
            Allowed(m, loop, ret) && Same(m, EvalBlock(fs, ss, st, fuel), base)
    decreases fuel, ss, 3
  {
    hide Agrees, PlainProgram, Sem, Eval, Plain;
    if ss.Cons? {
      SameStmt(fs, ss.head, st, env, w, base, fuel, loop, ret);
      var m, a := Sem(fs, ss.head, env, w, |base| + 1, fuel), Eval(fs, ss.head, st, fuel);
      if m.Done? && m.e.Normal? {
        SameBlock(fs, ss.tail, a.st, m.env, m.w, base, fuel, loop, ret);
      }
    }
  }

  lemma {:induction false} SameWhile(fs: seq<Func>, t: Tree, st: State, env: Env, w: World, base: seq<seq<Cell>>,
                                     fuel: nat, ret: bool)
    requires t.While? && IsExpr(t.cond) && Plain(t.body, InWhile, ret) && Start(fs, st, env, w, base)
    ensures var m := SemWhile(fs, t, env, w, |base| + 1, fuel);
            Allowed(m, NoLoop, ret) && Same(m, WhileLoop(fs, t, st, fuel), base)
    decreases fuel, t, 0
  {
    hide Agrees, PlainProgram, Sem, Eval, Plain, IsExpr;
    if fuel > 0 {
      SameExpr(fs, t.cond, st, env, w, base, fuel - 1);
      var m, a := Sem(fs, t.cond, env, w, |base| + 1, fuel - 1), Eval(fs, t.cond, st, fuel - 1);
      if m.Done? && m.e.Value? && m.e.v != 0 {
        assert a.st.(cont := false) == a.st;
        SameStmt(fs, t.body, a.st, m.env, m.w, base, fuel - 1, InWhile, ret);
        var n, b := Sem(fs, t.body, m.env, m.w, |base| + 1, fuel - 1), Eval(fs, t.body, a.st, fuel - 1);
        if n.Done? && n.e.Normal? {
          SameWhile(fs, t, b.st, n.env, n.w, base, fuel - 1, ret);
        }
      } else if a.Walk? && a.st.err {
        ErrEval(fs, t.body, a.st.(cont := false), fuel - 1);
      }
    }
  }

  lemma {:induction false} ForSame(fs: seq<Func>, t: Tree, st: State, env: Env, w: World, base: seq<seq<Cell>>,
                                   fuel: nat,
                                   loop: Loop, ret: bool)
    requires t.For? && Plain(t, loop, ret) && Start(fs, st, env, w, base)
    ensures var m := Sem(fs, t, env, w, |base| + 1, fuel);
            Allowed(m, NoLoop, ret) && Same(m, Eval(fs, t, st, fuel), base)
    decreases fuel, t, 1
  {
    hide Agrees, PlainProgram, ForLoop, SemFor;
    var i := t.start;
    if i.None? {
      SameFor(fs, t, st, env, w, base, fuel, ret);
    } else {
      if i.t.Decl? {
        DeclSame(fs, i.t, st, env, w, base, fuel);
      } else {
        SameExpr(fs, i.t, st, env, w, base, fuel);
      }
      var m, a := Sem(fs, i.t, env, w, |base| + 1, fuel), Eval(fs, i.t, st, fuel);
      if m.Done? {
        SameFor(fs, t, a.st, m.env, m.w, base, fuel, ret);
      } else if a.Walk? && a.st.err {
        ErrFor(fs, t, a.st, fuel);
      }
    }
  }

  lemma ErrFor(fs: seq<Func>, t: Tree, st: State, fuel: nat)
    requires t.For? && st.err
    ensures var r := ForLoop(fs, t, st, fuel); r.Walk? && r.st.err
  {
  }

  lemma {:induction false} SameFor(fs: seq<Func>, t: Tree, st: State, env: Env, w: World, base: seq<seq<Cell>>,
                                   fuel: nat,
                                   ret: bool)
    requires t.For? && OptExpr(t.test) && OptExpr(t.post) && Plain(t.body, ForKind(t.post), ret && t.post.None?)
    requires Start(fs, st, env, w, base)
    ensures var m := SemFor(fs, t, env, w, |base| + 1, fuel);
            Allowed(m, NoLoop, ret) && Same(m, ForLoop(fs, t, st, fuel), base)
    decreases fuel, t, 0
  {
    hide Agrees, PlainProgram, Sem, Eval, Plain, IsExpr;
    if fuel > 0 {
      var g, d := fuel - 1, |base| + 1;
      if t.test.Some? { SameExpr(fs, t.test.t, st, env, w, base, g); }
      var m := if t.test.None? then Done(Value(1), env, w) else Sem(fs, t.test.t, env, w, d, g);
      var a := if t.test.None? then Walk(st, 1) else Eval(fs, t.test.t, st, g);
      if m.Done? && m.e.Value? && m.e.v != 0 {
        assert a.st.(cont := false) == a.st;
        SameStmt(fs, t.body, a.st, m.env, m.w, base, g, ForKind(t.post), ret && t.post.None?);
        var n, b := Sem(fs, t.body, m.env, m.w, d, g), Eval(fs, t.body, a.st, g);
        if n.Done? && (n.e.Normal? || n.e.Continued?) {
          AfterBody(fs, t, b.st, n.env, n.w, base, g, ret);
        } else if n.Done? {
          LeaveFor(fs, t, b.st, g);
        } else if b.Walk? && b.st.err {
          ErrPost(fs, t, b.st, g);
        }
      } else if a.Walk? && a.st.err {
        ErrEval(fs, t.body, a.st.(cont := false), g);
        ErrPost(fs, t, a.st.(cont := false), g);
      }
    }
  }

  /** What a for loop does behind its body: the flag of continue cleared, the last part, the next round. */
  function Next(fs: seq<Func>, t: Tree, st: State, fuel: nat): Walk
    requires t.For?
  {
    var c := if t.post.None? then Walk(st.(cont := false), 0) else Eval(fs, t.post.t, st.(cont := false), fuel);
    if c.OutOfFuel? then c else ForLoop(fs, t, c.st, fuel)
  }

  lemma ErrPost(fs: seq<Func>, t: Tree, st: State, fuel: nat)
    requires t.For? && st.err
    ensures var r := Next(fs, t, st, fuel); r.Walk? && r.st.err
  {
    ErrFor(fs, t, st.(cont := false), fuel);
  }

  /** Without a last part, break and return leave the loop at once. */
  lemma LeaveFor(fs: seq<Func>, t: Tree, st: State, fuel: nat)
    requires t.For? && t.post.None? && (st.brk || st.ret)
    ensures Next(fs, t, st, fuel) == Walk(st.(cont := false, brk := false), 0)
  {
  }

  lemma {:induction false} AfterBody(fs: seq<Func>, t: Tree, st: State, env: Env, w: World, base: seq<seq<Cell>>,
                                     fuel: nat,
                                     ret: bool)
    requires t.For? && OptExpr(t.test) && OptExpr(t.post) && Plain(t.body, ForKind(t.post), ret && t.post.None?)
    requires Start(fs, st.(cont := false), env, w, base)
    ensures var c := if t.post.None? then Done(Normal, env, w) else Sem(fs, t.post.t, env, w, |base| + 1, fuel);
      var m := if c.Done? then SemFor(fs, t, c.env, c.w, |base| + 1, fuel) else c;
      Allowed(m, NoLoop, ret) && Same(m, Next(fs, t, st, fuel), base)
    decreases fuel, t, 1
  {
    hide Agrees, PlainProgram, Sem, Eval, Plain, IsExpr, ForLoop, SemFor;
    var st1 := st.(cont := false);
    if t.post.None? {
      SameFor(fs, t, st1, env, w, base, fuel, ret);
    } else {
      SameExpr(fs, t.post.t, st1, env, w, base, fuel);
      var c, r := Sem(fs, t.post.t, env, w, |base| + 1, fuel), Eval(fs, t.post.t, st1, fuel);
      if c.Done? {
        SameFor(fs, t, r.st, c.env, c.w, base, fuel, ret);
      } else if r.Walk? && r.st.err {
        ErrFor(fs, t, r.st, fuel);
      }
    }
  }
}
