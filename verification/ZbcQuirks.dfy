/** Frames in every program, whole runs of plain programs, and where other programs depart from the structured
    semantics. */
module ZbcQuirks {
  import opened ZbcSyntax
  import opened ZbcEval
  import opened ZbcAgreement

  // ---- frames ----

  /** The frames below the top one are as they were. */
  ghost predicate Below(st: State, r: State) {
    |r.scopes| == |st.scopes| > 0 && r.scopes[..|st.scopes| - 1] == st.scopes[..|st.scopes| - 1]
  }

  ghost predicate KeepsBelow(st: State, w: Walk) { w.Walk? ==> Below(st, w.st) }

  /** Whatever a program does, break and continue where they do not belong included, walking a tree changes no frame
      but the top one. */
  lemma {:induction false} EvalFrames(fs: seq<Func>, t: Tree, st: State, fuel: nat)
    requires st.scopes != []
    ensures KeepsBelow(st, Eval(fs, t, st, fuel))
    decreases fuel, t, 2
  {
    hide Eval;
    if IsStmt(t) {
      StmtFrames(fs, t, st, fuel);
    } else {
      ExprFrames(fs, t, st, fuel);
    }
  }

  predicate IsStmt(t: Tree) {
    t.If? || t.While? || t.For? || t.Return? || t.Block? || t.ExprStmt? || t.Break? || t.Cont?
  }

  lemma {:induction false} ExprFrames(fs: seq<Func>, t: Tree, st: State, fuel: nat)
    requires st.scopes != [] && !IsStmt(t)
    ensures KeepsBelow(st, Eval(fs, t, st, fuel))
    decreases fuel, t, 1
  {
    hide BinValue, UnValue, AssignValue, EvalArgs, EvalBlock, CallFunction, WhileLoop, ForLoop, Find;
    match t
    case Assign(op, n, rhs) => EvalFrames(fs, rhs, st, fuel);
    case Decl(n, i) => if i.Some? { EvalFrames(fs, i.t, st, fuel); }
    case Bin(op, l, r) =>
      EvalFrames(fs, l, st, fuel);
      var a := Eval(fs, l, st, fuel);
      if a.Walk? { EvalFrames(fs, r, a.st, fuel); }
    case Un(_, e) => EvalFrames(fs, e, st, fuel);
    case Call(n, args) =>
      if n != "puts" {
        ArgsFrames(fs, args, st, MAX_ARGS, fuel);
        var a := EvalArgs(fs, args, st, MAX_ARGS, fuel);
        if a.Values? { CallFrames(fs, t, a.vals, a.st, fuel); }
      }
    case _ =>
  }

  lemma {:induction false} StmtFrames(fs: seq<Func>, t: Tree, st: State, fuel: nat)
    requires st.scopes != [] && IsStmt(t)
    ensures KeepsBelow(st, Eval(fs, t, st, fuel))
    decreases fuel, t, 1
  {
    hide BinValue, UnValue, AssignValue, EvalArgs, EvalBlock, CallFunction, WhileLoop, ForLoop, Find;
    match t
    case If(c, y, n) =>
      EvalFrames(fs, c, st, fuel);
      var a := Eval(fs, c, st, fuel);
      if a.Walk? {
        EvalFrames(fs, y, a.st, fuel);
        if n.Some? { EvalFrames(fs, n.t, a.st, fuel); }
      }
    case While(_, _) => WhileFrames(fs, t, st, fuel);
    case For(i, _, _, _) =>
      if i.Some? { EvalFrames(fs, i.t, st, fuel); }
      var a := if i.None? then Walk(st, 0) else Eval(fs, i.t, st, fuel);
      if a.Walk? { ForFrames(fs, t, a.st, fuel); }
    case Return(o) => if o.Some? { EvalFrames(fs, o.t, st, fuel); }
    case Block(ss) => BlockFrames(fs, ss, st, fuel);
    case ExprStmt(e) => EvalFrames(fs, e, st, fuel);
    case _ =>
  }

  lemma {:induction false} ArgsFrames(fs: seq<Func>, args: Trees, st: State, room: nat, fuel: nat)
    requires st.scopes != []
    ensures var a := EvalArgs(fs, args, st, room, fuel); a.Values? ==> Below(st, a.st)
    decreases fuel, args, 3
  {
    hide Eval;
    if args.Cons? && room > 0 {
      EvalFrames(fs, args.head, st, fuel);
      var a := Eval(fs, args.head, st, fuel);
      if a.Walk? { ArgsFrames(fs, args.tail, a.st, room - 1, fuel); }
    }
  }

  lemma {:induction false} BlockFrames(fs: seq<Func>, ss: Trees, st: State, fuel: nat)
    requires st.scopes != []
    ensures KeepsBelow(st, EvalBlock(fs, ss, st, fuel))
    decreases fuel, ss, 3
  {
    hide Eval;
    if ss.Cons? {
      EvalFrames(fs, ss.head, st, fuel);
      var a := Eval(fs, ss.head, st, fuel);
      if a.Walk? { BlockFrames(fs, ss.tail, a.st, fuel); }
    }
  }

  lemma {:induction false} WhileFrames(fs: seq<Func>, t: Tree, st: State, fuel: nat)
    requires t.While? && st.scopes != []
    ensures KeepsBelow(st, WhileLoop(fs, t, st, fuel))
    decreases fuel, t, 0
  {
    hide Eval;
    if fuel > 0 {
      EvalFrames(fs, t.cond, st, fuel - 1);
      var a := Eval(fs, t.cond, st, fuel - 1);
      if a.Walk? {
        EvalFrames(fs, t.body, a.st.(cont := false), fuel - 1);
        var b := Eval(fs, t.body, a.st.(cont := false), fuel - 1);
        if b.Walk? { WhileFrames(fs, t, b.st, fuel - 1); }
      }
    }
  }

  lemma {:induction false} ForFrames(fs: seq<Func>, t: Tree, st: State, fuel: nat)
    requires t.For? && st.scopes != []
    ensures KeepsBelow(st, ForLoop(fs, t, st, fuel))
    decreases fuel, t, 0
  {
    hide Eval, Below;
    BelowSelf(st);
    Onwards(st, st, st.(brk := false));
    if fuel > 0 {
      if t.test.Some? { EvalFrames(fs, t.test.t, st, fuel - 1); }
      var a := if t.test.None? then Walk(st, 1) else Eval(fs, t.test.t, st, fuel - 1);
      if a.Walk? {
        Onwards(st, a.st, a.st.(brk := false));
        Onwards(st, a.st, a.st.(cont := false));
        EvalFrames(fs, t.body, a.st.(cont := false), fuel - 1);
        var b := Eval(fs, t.body, a.st.(cont := false), fuel - 1);
        if b.Walk? {
          Onwards(st, a.st.(cont := false), b.st);
          var b1 := b.st.(cont := false);
          Onwards(st, b.st, b1);
          if t.post.Some? { EvalFrames(fs, t.post.t, b1, fuel - 1); }
          var c := if t.post.None? then Walk(b1, 0) else Eval(fs, t.post.t, b1, fuel - 1);
          if c.Walk? {
            Onwards(st, b1, c.st);
            ForFrames(fs, t, c.st, fuel - 1);
            var d := ForLoop(fs, t, c.st, fuel - 1);
            if d.Walk? { Onwards(st, c.st, d.st); }
          }
        }
      }
    }
  }

  lemma BelowSelf(st: State)
    requires st.scopes != []
    ensures Below(st, st)
  {
  }

  /** Frames below the top one stay through a walk, and through a change of flags. */
  lemma Onwards(st: State, r: State, s: State)
    requires Below(st, r) && (Below(r, s) || s.scopes == r.scopes)
    ensures Below(st, s) && s.scopes != []
  {
  }

  /** A call changes no frame of its caller at all. */
  lemma {:induction false} CallFrames(fs: seq<Func>, t: Tree, vals: seq<int>, st: State, fuel: nat)
    requires t.Call?
    ensures var r := CallFunction(fs, t, vals, st, fuel); r.Walk? ==> r.st.scopes == st.scopes
    decreases fuel, t, 0
  {
    hide Eval, Bind, FindFunc, Native, IsNative, Below, Entered, ZbcEval.Left;
    var k := FindFunc(fs, t.name, 0);
    if IsNative(t.name) {
      NativeScopes(t.name, vals, st);
    } else if k >= 0 && fuel > 0 {
      var st1 := Entered(fs[k], vals, st);
      EnteredScopes(fs[k], vals, st);
      EvalFrames(fs, fs[k].body, st1, fuel - 1);
      var r := Eval(fs, fs[k].body, st1, fuel - 1);
      if r.Walk? { LeftScopes(st, st1, r.st, Bind(fs[k].params, vals)); }
    }
  }

  lemma EnteredScopes(f: Func, vals: seq<int>, st: State)
    ensures Entered(f, vals, st).scopes == st.scopes + [Bind(f.params, vals)]
  {
    hide Bind;
  }

  lemma LeftScopes(st: State, st1: State, r: State, cells: seq<Cell>)
    requires st1.scopes == st.scopes + [cells] && Below(st1, r)
    ensures ZbcEval.Left(r).scopes == st.scopes
  {
    assert st1.scopes[..|st.scopes|] == st.scopes;
  }

  lemma NativeScopes(n: string, vals: seq<int>, st: State)
    requires IsNative(n)
    ensures var r := Native(n, vals, st); r.Walk? ==> r.st.scopes == st.scopes
  {
  }

  // ---- whole runs ----

  const MAIN := Call("main", Nil)

  function Initial(keys: seq<int>): State { State([], [], keys, false, false, 0, false, false) }

  /** The three calls the interpreter knows itself, whatever functions the program has: a number with a newline, a
      character, and the next key. */
  lemma NativeCalls(fs: seq<Func>, args: Trees, v: int, vals: seq<int>, st: State, fuel: nat)
    ensures CallFunction(fs, Call("print", args), [v] + vals, st, fuel)
      == Walk(st.(out := st.out + [Printed(v)]), 0)
    ensures CallFunction(fs, Call("putchar", args), [v] + vals, st, fuel) == Walk(st.(out := st.out + [Char(v)]), 0)
    ensures st.keys != [] ==>
      CallFunction(fs, Call("getchar", args), vals, st, fuel) == Walk(st.(keys := st.keys[1..]), st.keys[0])
  {
  }

  /** The interpreter runs `main` without arguments. */
  function Run(fs: seq<Func>, keys: seq<int>, fuel: nat): Walk {
    CallFunction(fs, MAIN, [], Initial(keys), fuel)
  }

  function MeaningOf(fs: seq<Func>, keys: seq<int>, fuel: nat): Meaning {
    SemCall(fs, MAIN, [], Env(map[], 0), World([], keys), 0, fuel)
  }

  /** A plain program that has a meaning prints, reads and returns what its meaning says; one with an error stops
      with an error; one that does not end, does not end. */
  lemma RunMeans(fs: seq<Func>, keys: seq<int>, fuel: nat)
    requires PlainProgram(fs)
    ensures var m, r := MeaningOf(fs, keys, fuel), Run(fs, keys, fuel);
      && (m.Done? ==>
            r.Walk? && !r.st.err && r.st.out == m.w.out && r.st.keys == m.w.keys && (m.e.Value? ==> r.v == m.e.v))
      && (m.Failed? && r.Walk? ==> r.st.err)
      && (m.Endless? ==> r.OutOfFuel?)
  {
    hide Agrees, Sem, Eval, Find, PlainProgram;
    var k := FindFunc(fs, "main", 0);
    if k >= 0 && fuel > 0 {
      assert Plain(fs[k].body, NoLoop, true) by { PlainBody(fs, k); }
      NoneBound();
      var st1 := Entered(fs[k], [], Initial(keys));
      SameStmt(fs, fs[k].body, st1, Env(map[], 0), World([], keys), [], fuel - 1, NoLoop, true);
    }
  }

  lemma PlainBody(fs: seq<Func>, k: nat)
    requires PlainProgram(fs) && k < |fs|
    ensures Plain(fs[k].body, NoLoop, true)
  {
  }

  // ---- quirks ----

  /** `while (n) { n = 0; continue; }` */
  function Clear(n: string): Tree { ExprStmt(Assign(Set, n, Num(0))) }
  function ClearOn(n: string): Tree { Block(Cons(Clear(n), Cons(Cont, Nil))) }
  function Once(n: string): Tree { While(Var(n), ClearOn(n)) }

  /** A while loop left after a continue keeps the flag set, so that whatever statements stand behind it are skipped;
      their meaning is to be executed. */
  lemma WhileContinueSkips(fs: seq<Func>, st: State, env: Env, w: World, n: string, behind: Trees, depth: nat,
                           fuel: nat)
    requires Matches(st, env, w, []) && Calm(st) && n in env.vars && env.vars[n] != 0 && fuel >= 2
    ensures var t, env0 := Block(Cons(Once(n), behind)), env.(vars := env.vars[n := 0]);
      && Sem(fs, t, env, w, depth, fuel) == SemBlock(fs, behind, env0, w, depth, fuel)
      && var r := Eval(fs, t, st, fuel);
         r.Walk? && r.st.cont && Matches(r.st, env0, w, [])
  {
    hide Agrees, Find, Sem, Eval, Once;
    OnceMeant(fs, env, w, n, depth, fuel);
    BlockMeant(fs, Once(n), behind, env, w, depth, fuel);
    OnceWalked(fs, st, env, w, n, fuel);
    BlockWalked(fs, Once(n), behind, st, Store(Set, n, false, st, 0).st.(cont := true), fuel);
  }

  lemma BlockMeant(fs: seq<Func>, a: Tree, ss: Trees, env: Env, w: World, depth: nat, fuel: nat)
    ensures var m := Sem(fs, a, env, w, depth, fuel);
      m.Done? && m.e.Normal? ==>
        Sem(fs, Block(Cons(a, ss)), env, w, depth, fuel) == SemBlock(fs, ss, m.env, m.w, depth, fuel)
  {
  }

  lemma BlockWalked(fs: seq<Func>, a: Tree, ss: Trees, st: State, st1: State, fuel: nat)
    requires Calm(st) && Eval(fs, a, st, fuel) == Walk(st1, 0) && st1.cont
    ensures Eval(fs, Block(Cons(a, ss)), st, fuel) == Walk(st1, 0)
  {
    hide Eval;
    assert ZbcEval.EvalBlock(fs, ss, st1, fuel) == Walk(st1, 0);
    assert ZbcEval.EvalBlock(fs, Cons(a, ss), st, fuel) == Walk(st1, 0);
    EvalOfBlock(fs, Cons(a, ss), st, fuel);
  }

  lemma EvalOfBlock(fs: seq<Func>, ss: Trees, st: State, fuel: nat)
    requires !st.err
    ensures Eval(fs, Block(ss), st, fuel) == EvalBlock(fs, ss, st, fuel)
  {
    hide EvalBlock;
  }

  lemma ClearMeant(fs: seq<Func>, env: Env, w: World, n: string, depth: nat, fuel: nat)
    requires n in env.vars
    ensures Sem(fs, ClearOn(n), env, w, depth, fuel) == Done(Continued, env.(vars := env.vars[n := 0]), w)
  {
    hide BinValue;
    var env0 := env.(vars := env.vars[n := 0]);
    assert Sem(fs, Assign(Set, n, Num(0)), env, w, depth, fuel) == Done(Value(0), env0, w) by {
      assert Sem(fs, Num(0), env, w, depth, fuel) == Done(Value(0), env, w);
    }
    assert Sem(fs, Clear(n), env, w, depth, fuel) == Done(Normal, env0, w);
    assert SemBlock(fs, Cons(Cont, Nil), env0, w, depth, fuel) == Done(Continued, env0, w) by {
      assert Sem(fs, Cont, env0, w, depth, fuel) == Done(Continued, env0, w);
    }
  }

  lemma OnceMeant(fs: seq<Func>, env: Env, w: World, n: string, depth: nat, fuel: nat)
    requires n in env.vars && env.vars[n] != 0 && fuel >= 2
    ensures Sem(fs, Once(n), env, w, depth, fuel) == Done(Normal, env.(vars := env.vars[n := 0]), w)
  {
    hide ClearOn;
    var env0 := env.(vars := env.vars[n := 0]);
    assert SemWhile(fs, Once(n), env0, w, depth, fuel - 1) == Done(Normal, env0, w) by {
      assert Sem(fs, Var(n), env0, w, depth, fuel - 2) == Done(Value(0), env0, w);
    }
    ClearMeant(fs, env, w, n, depth, fuel - 1);
    assert Sem(fs, Var(n), env, w, depth, fuel - 1) == Done(Value(env.vars[n]), env, w);
    assert SemWhile(fs, Once(n), env, w, depth, fuel) == Done(Normal, env0, w);
  }

  lemma ClearWalked(fs: seq<Func>, st: State, st0: State, n: string, fuel: nat)
    requires Calm(st) && Store(Set, n, false, st, 0) == Walk(st0, 0) && Calm(st0)
    ensures Eval(fs, ClearOn(n), st, fuel) == Walk(st0.(cont := true), 0)
  {
    hide Store;
    assert Eval(fs, Assign(Set, n, Num(0)), st, fuel) == Walk(st0, 0) by {
      assert Eval(fs, Num(0), st, fuel) == Walk(st, 0);
    }
    assert Eval(fs, Clear(n), st, fuel) == Walk(st0, 0);
    assert EvalBlock(fs, Cons(Cont, Nil), st0, fuel) == Walk(st0.(cont := true), 0) by {
      assert Eval(fs, Cont, st0, fuel) == Walk(st0.(cont := true), 0);
      assert EvalBlock(fs, Nil, st0.(cont := true), fuel) == Walk(st0.(cont := true), 0);
    }
    hide Eval, Clear;
    assert EvalBlock(fs, Cons(Clear(n), Cons(Cont, Nil)), st, fuel) == Walk(st0.(cont := true), 0);
    EvalOfBlock(fs, Cons(Clear(n), Cons(Cont, Nil)), st, fuel);
  }

  lemma OnceWalked(fs: seq<Func>, st: State, env: Env, w: World, n: string, fuel: nat)
    requires Matches(st, env, w, []) && Calm(st) && n in env.vars && env.vars[n] != 0 && fuel >= 2
    ensures var st0 := Store(Set, n, false, st, 0).st;
      && Eval(fs, Once(n), st, fuel) == Walk(st0.(cont := true), 0)
      && Matches(st0, env.(vars := env.vars[n := 0]), w, [])
  {
    hide Agrees, Find, BinValue, ClearOn;
    StoreSame(Set, n, false, st, 0, env, w, []);
    NamedValue(Top(st), env, n);
    var env0 := env.(vars := env.vars[n := 0]);
    var st0 := Store(Set, n, false, st, 0).st;
    ClearWalked(fs, st, st0, n, fuel - 1);
    NamedValue(Top(st0), env0, n);
    var st1 := st0.(cont := true);
    assert WhileLoop(fs, Once(n), st1, fuel - 1) == Walk(st1, 0) by {
      assert Eval(fs, Var(n), st1, fuel - 2) == Walk(st1, 0);
    }
    assert Eval(fs, Var(n), st, fuel - 1) == Walk(st, env.vars[n]);
    assert WhileLoop(fs, Once(n), st, fuel) == Walk(st1, 0);
  }

  /** `for (;; n = v) break;` runs its last part after the break: the meaning leaves variable `n` as it is, the walk
      sets it. */
  lemma ForBreakRunsPost(fs: seq<Func>, st: State, env: Env, w: World, n: string, v: int, depth: nat, fuel: nat)
    requires Matches(st, env, w, []) && Calm(st) && n in env.vars && fuel >= 2
    ensures var t := For(None, None, Some(Assign(Set, n, Num(v))), Break);
      && Sem(fs, t, env, w, depth, fuel) == Done(Normal, env, w)
      && var r := Eval(fs, t, st, fuel);
         r.Walk? && Same(Done(Normal, env.(vars := env.vars[n := v]), w), r, [])
  {
    hide Agrees, Find, AssignValue;
    var t := For(None, None, Some(Assign(Set, n, Num(v))), Break);
    var st1 := st.(brk := true);
    StoreSame(Set, n, false, st, v, env, w, []);
    NamedValue(Top(st), env, n);
    SetAssigns(v, env.vars[n]);
    SetAssigns(v, Top(st)[Find(Top(st), n)].value);
    var x := Store(Set, n, false, st, v).st;
    assert Assigned(Set, n, v, env, w) == Done(Value(v), env.(vars := env.vars[n := v]), w);
    assert Eval(fs, Break, st, fuel - 1) == Walk(st1, 0);
    assert Store(Set, n, false, st1, v) == Walk(x.(brk := true), v);
    assert Eval(fs, Assign(Set, n, Num(v)), st1, fuel - 1) == Store(Set, n, false, st1, v) by {
      assert Eval(fs, Num(v), st1, fuel - 1) == Walk(st1, v);
    }
    assert ForLoop(fs, t, x.(brk := true), fuel - 1) == Walk(x, 0);
    assert ForLoop(fs, t, st, fuel) == Walk(x, 0);
    assert SemFor(fs, t, env, w, depth, fuel) == Done(Normal, env, w) by {
      assert Sem(fs, Break, env, w, depth, fuel - 1) == Done(Broken, env, w);
    }
  }
}
