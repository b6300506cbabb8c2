/** What a function returns that never says so: the value of the last call it makes. */
module ZbcReturns {
  import opened ZbcSyntax
  import opened ZbcEval

  /** No return statement anywhere in the tree. */
  predicate NoReturn(t: Tree) {
    match t
    case Return(_) => false
    case Assign(_, _, rhs) => NoReturn(rhs)
    case Bin(_, l, r) => NoReturn(l) && NoReturn(r)
    case Un(_, e) => NoReturn(e)
    case Call(_, args) => NoReturns(args)
    case Decl(_, i) => OptNoReturn(i)
    case If(c, y, n) => NoReturn(c) && NoReturn(y) && OptNoReturn(n)
    case While(c, b) => NoReturn(c) && NoReturn(b)
    case For(i, c, p, b) => OptNoReturn(i) && OptNoReturn(c) && OptNoReturn(p) && NoReturn(b)
    case Block(ss) => NoReturns(ss)
    case ExprStmt(e) => NoReturn(e)
    case _ => true
  }

  predicate OptNoReturn(o: Opt) { o.Some? ==> NoReturn(o.t) }

  predicate NoReturns(ts: Trees) { ts.Cons? ==> NoReturn(ts.head) && NoReturns(ts.tail) }

  /** The last of these values, or `v` if there is none. */
  function Last(vals: seq<int>, v: int): int { if vals == [] then v else vals[|vals| - 1] }

  lemma LastOf(a: seq<int>, b: seq<int>, v: int)
    ensures Last(a + b, v) == Last(b, Last(a, v))
  {
  }

  // ---- the values of the calls a walk makes, in their order; calls within calls are not among them ----

  function Yields(fs: seq<Func>, t: Tree, st: State, fuel: nat): seq<int>
    decreases fuel, t, 2
  {
    if st.err then []
    else
      match t
      case Assign(_, _, rhs) => Yields(fs, rhs, st, fuel)
      case Decl(_, i) => if i.None? then [] else Yields(fs, i.t, st, fuel)
      case Bin(op, l, r) =>
        var a := Eval(fs, l, st, fuel);
        Yields(fs, l, st, fuel)
        + if a.OutOfFuel? || (op == And && a.v == 0) || (op == Or && a.v != 0) then [] else Yields(fs, r, a.st, fuel)
      case Un(_, e) => Yields(fs, e, st, fuel)
      case Call(n, args) =>
        if n == "puts" then []
        else
          var a := EvalArgs(fs, args, st, MAX_ARGS, fuel);
          YieldsOfArgs(fs, args, st, MAX_ARGS, fuel)
          + if a.Values? then YieldOfCall(fs, t, a.vals, a.st, fuel) else []
      case If(c, y, n) =>
        var a := Eval(fs, c, st, fuel);
        Yields(fs, c, st, fuel)
        + if a.OutOfFuel? then []
          else if a.v != 0 then Yields(fs, y, a.st, fuel)
          else if n.Some? then Yields(fs, n.t, a.st, fuel)
          else []
      case While(_, _) => YieldsOfWhile(fs, t, st, fuel)
      case For(i, _, _, _) =>
        if i.None? then YieldsOfFor(fs, t, st, fuel)
        else
          var a := Eval(fs, i.t, st, fuel);
          Yields(fs, i.t, st, fuel) + if a.OutOfFuel? then [] else YieldsOfFor(fs, t, a.st, fuel)
      case Return(o) => if o.None? then [] else Yields(fs, o.t, st, fuel)
      case Block(ss) => YieldsOfBlock(fs, ss, st, fuel)
      case ExprStmt(e) => Yields(fs, e, st, fuel)
      case _ => []
  }

  /** A call that finds its function and a frame for it. */
  predicate Enters(fs: seq<Func>, t: Tree, st: State)
    requires t.Call?
  {
    !IsNative(t.name) && FindFunc(fs, t.name, 0) >= 0 && |st.scopes| < MAX_CALL
  }

  function YieldOfCall(fs: seq<Func>, t: Tree, vals: seq<int>, st: State, fuel: nat): seq<int>
    requires t.Call?
  {
    var r := CallFunction(fs, t, vals, st, fuel);
    if Enters(fs, t, st) && r.Walk? then [r.v] else []
  }

  function YieldsOfArgs(fs: seq<Func>, args: Trees, st: State, room: nat, fuel: nat): seq<int>
    decreases fuel, args, 3
  {
    if args.Nil? || room == 0 then []
    else
      var a := Eval(fs, args.head, st, fuel);
      Yields(fs, args.head, st, fuel)
      + if a.OutOfFuel? then [] else YieldsOfArgs(fs, args.tail, a.st, room - 1, fuel)
  }

  function YieldsOfBlock(fs: seq<Func>, ss: Trees, st: State, fuel: nat): seq<int>
    decreases fuel, ss, 3
  {
    if ss.Nil? || st.ret || st.brk || st.cont || st.err then []
    else
      var a := Eval(fs, ss.head, st, fuel);
      Yields(fs, ss.head, st, fuel) + if a.OutOfFuel? then [] else YieldsOfBlock(fs, ss.tail, a.st, fuel)
  }

  function YieldsOfWhile(fs: seq<Func>, t: Tree, st: State, fuel: nat): seq<int>
    requires t.While?
    decreases fuel, t, 0
  {
    if st.ret || st.brk || st.err || fuel == 0 then []
    else
      var a := Eval(fs, t.cond, st, fuel - 1);
      Yields(fs, t.cond, st, fuel - 1)
      + if a.OutOfFuel? || a.v == 0 then []
        else
          var b := Eval(fs, t.body, a.st.(cont := false), fuel - 1);
          Yields(fs, t.body, a.st.(cont := false), fuel - 1)
          + if b.OutOfFuel? then [] else YieldsOfWhile(fs, t, b.st, fuel - 1)
  }

  function YieldsOfFor(fs: seq<Func>, t: Tree, st: State, fuel: nat): seq<int>
    requires t.For?
    decreases fuel, t, 0
  {
    if st.ret || st.brk || st.err || fuel == 0 then []
    else
      var a := if t.test.None? then Walk(st, 1) else Eval(fs, t.test.t, st, fuel - 1);
      (if t.test.None? then [] else Yields(fs, t.test.t, st, fuel - 1))
      + if a.OutOfFuel? || a.v == 0 then []
        else
          var b := Eval(fs, t.body, a.st.(cont := false), fuel - 1);
          Yields(fs, t.body, a.st.(cont := false), fuel - 1)
          + if b.OutOfFuel? then []
            else
              var c := if t.post.None? then Walk(b.st.(cont := false), 0)
                  else Eval(fs, t.post.t, b.st.(cont := false), fuel - 1);
              (if t.post.None? then [] else Yields(fs, t.post.t, b.st.(cont := false), fuel - 1))
              + if c.OutOfFuel? then [] else YieldsOfFor(fs, t, c.st, fuel - 1)
  }

  // ---- the register holds the last of them ----

  ghost predicate Holds(w: Walk, vals: seq<int>, st: State) { w.Walk? ==> w.st.rv == Last(vals, st.rv) }

  /** One walk after another. */
  lemma Then(a: State, b: State, va: seq<int>, w: Walk, vb: seq<int>)
    requires b.rv == Last(va, a.rv) && Holds(w, vb, b)
    ensures Holds(w, va + vb, a)
  {
    LastOf(va, vb, a.rv);
  }

  lemma Nothing(a: State, b: State, va: seq<int>)
    requires b.rv == Last(va, a.rv)
    ensures Last(va + [], a.rv) == b.rv
  {
    assert va + [] == va;
  }

  /** Whatever statements a tree without return is made of, walking it leaves in the register for return values the
      value of the last call it has made, or what was there. */
  lemma {:induction false} LastHeld(fs: seq<Func>, t: Tree, st: State, fuel: nat)
    requires NoReturn(t)
    ensures Holds(Eval(fs, t, st, fuel), Yields(fs, t, st, fuel), st)
    decreases fuel, t, 2
  {
    if t.If? || t.While? || t.For? || t.Block? || t.ExprStmt? {
      StmtHeld(fs, t, st, fuel);
    } else {
      ExprHeld(fs, t, st, fuel);
    }
  }

  lemma {:induction false} ExprHeld(fs: seq<Func>, t: Tree, st: State, fuel: nat)
    requires NoReturn(t) && !t.If? && !t.While? && !t.For? && !t.Block? && !t.ExprStmt?
    ensures Holds(Eval(fs, t, st, fuel), Yields(fs, t, st, fuel), st)
    decreases fuel, t, 1
  {
    hide BinValue, UnValue, AssignValue, EvalArgs, EvalBlock, CallFunction, WhileLoop, ForLoop, Find;
    assert Last([], st.rv) == st.rv;
    hide YieldsOfArgs, YieldsOfBlock, YieldOfCall, YieldsOfWhile, YieldsOfFor, Last;
    if !st.err {
      match t
      case Assign(op, n, rhs) => LastHeld(fs, rhs, st, fuel);
      case Decl(n, i) => if i.Some? { LastHeld(fs, i.t, st, fuel); }
      case Bin(op, l, r) =>
        LastHeld(fs, l, st, fuel);
        var a := Eval(fs, l, st, fuel);
        if a.Walk? {
          LastHeld(fs, r, a.st, fuel);
          Then(st, a.st, Yields(fs, l, st, fuel), Eval(fs, r, a.st, fuel), Yields(fs, r, a.st, fuel));
          Nothing(st, a.st, Yields(fs, l, st, fuel));
        }
      case Un(_, e) => LastHeld(fs, e, st, fuel);
      case Call(n, args) =>
        if n != "puts" {
          LastArgHeld(fs, args, st, MAX_ARGS, fuel);
          var a := EvalArgs(fs, args, st, MAX_ARGS, fuel);
          if a.Values? {
            CallHeld(fs, t, a.vals, a.st, fuel);
            Then(st, a.st, YieldsOfArgs(fs, args, st, MAX_ARGS, fuel), CallFunction(fs, t, a.vals, a.st, fuel),
                 YieldOfCall(fs, t, a.vals, a.st, fuel));
          }
        }
      case _ =>
    }
  }

  lemma {:induction false} StmtHeld(fs: seq<Func>, t: Tree, st: State, fuel: nat)
    requires NoReturn(t) && (t.If? || t.While? || t.For? || t.Block? || t.ExprStmt?)
    ensures Holds(Eval(fs, t, st, fuel), Yields(fs, t, st, fuel), st)
    decreases fuel, t, 1
  {
    hide BinValue, UnValue, AssignValue, EvalArgs, EvalBlock, CallFunction, WhileLoop, ForLoop, Find;
    assert Last([], st.rv) == st.rv;
    hide YieldsOfArgs, YieldsOfBlock, YieldOfCall, YieldsOfWhile, YieldsOfFor, Last;
    if !st.err {
      match t
      case If(c, y, n) =>
        LastHeld(fs, c, st, fuel);
        var a := Eval(fs, c, st, fuel);
        if a.Walk? {
          LastHeld(fs, y, a.st, fuel);
          if n.Some? { LastHeld(fs, n.t, a.st, fuel); }
          Then(st, a.st, Yields(fs, c, st, fuel), Eval(fs, y, a.st, fuel), Yields(fs, y, a.st, fuel));
          if n.Some? {
            Then(st, a.st, Yields(fs, c, st, fuel), Eval(fs, n.t, a.st, fuel), Yields(fs, n.t, a.st, fuel));
          }
          Nothing(st, a.st, Yields(fs, c, st, fuel));
        }
      case While(_, _) => WhileHeld(fs, t, st, fuel);
      case For(i, _, _, _) =>
        if i.None? {
          ForHeld(fs, t, st, fuel);
        } else {
          LastHeld(fs, i.t, st, fuel);
          var a := Eval(fs, i.t, st, fuel);
          if a.Walk? {
            ForHeld(fs, t, a.st, fuel);
            Then(st, a.st, Yields(fs, i.t, st, fuel), ForLoop(fs, t, a.st, fuel), YieldsOfFor(fs, t, a.st, fuel));
          }
        }
      case Block(ss) => BlockHeld(fs, ss, st, fuel);
      case ExprStmt(e) => LastHeld(fs, e, st, fuel);
    }
  }

  lemma CallHeld(fs: seq<Func>, t: Tree, vals: seq<int>, st: State, fuel: nat)
    requires t.Call?
    ensures Holds(CallFunction(fs, t, vals, st, fuel), YieldOfCall(fs, t, vals, st, fuel), st)
  {
    hide Eval, Bind;
  }

  lemma {:induction false} LastArgHeld(fs: seq<Func>, args: Trees, st: State, room: nat, fuel: nat)
    requires NoReturns(args)
    ensures var a := EvalArgs(fs, args, st, room, fuel);
            a.Values? ==> a.st.rv == Last(YieldsOfArgs(fs, args, st, room, fuel), st.rv)
    decreases fuel, args, 3
  {
    hide Eval, Yields;
    if args.Cons? && room > 0 {
      LastHeld(fs, args.head, st, fuel);
      var a := Eval(fs, args.head, st, fuel);
      if a.Walk? {
        LastArgHeld(fs, args.tail, a.st, room - 1, fuel);
        LastOf(Yields(fs, args.head, st, fuel), YieldsOfArgs(fs, args.tail, a.st, room - 1, fuel), st.rv);
      }
    }
  }

  lemma {:induction false} BlockHeld(fs: seq<Func>, ss: Trees, st: State, fuel: nat)
    requires NoReturns(ss)
    ensures Holds(EvalBlock(fs, ss, st, fuel), YieldsOfBlock(fs, ss, st, fuel), st)
    decreases fuel, ss, 3
  {
    hide Eval, Yields;
    if ss.Cons? && !(st.ret || st.brk || st.cont || st.err) {
      LastHeld(fs, ss.head, st, fuel);
      var a := Eval(fs, ss.head, st, fuel);
      if a.Walk? {
        BlockHeld(fs, ss.tail, a.st, fuel);
        Then(st, a.st, Yields(fs, ss.head, st, fuel), EvalBlock(fs, ss.tail, a.st, fuel),
             YieldsOfBlock(fs, ss.tail, a.st, fuel));
      }
    }
  }

  lemma {:induction false} WhileHeld(fs: seq<Func>, t: Tree, st: State, fuel: nat)
    requires t.While? && NoReturn(t)
    ensures Holds(WhileLoop(fs, t, st, fuel), YieldsOfWhile(fs, t, st, fuel), st)
    decreases fuel, t, 0
  {
    hide Eval, Yields;
    if fuel > 0 && !(st.ret || st.brk || st.err) {
      LastHeld(fs, t.cond, st, fuel - 1);
      var a := Eval(fs, t.cond, st, fuel - 1);
      if a.Walk? && a.v != 0 {
        var st1 := a.st.(cont := false);
        LastHeld(fs, t.body, st1, fuel - 1);
        var b := Eval(fs, t.body, st1, fuel - 1);
        if b.Walk? {
          WhileHeld(fs, t, b.st, fuel - 1);
          Then(st1, b.st, Yields(fs, t.body, st1, fuel - 1), WhileLoop(fs, t, b.st, fuel - 1),
               YieldsOfWhile(fs, t, b.st, fuel - 1));
          Then(st, st1, Yields(fs, t.cond, st, fuel - 1), WhileLoop(fs, t, b.st, fuel - 1),
               Yields(fs, t.body, st1, fuel - 1) + YieldsOfWhile(fs, t, b.st, fuel - 1));
        }
      }
    }
  }

  lemma {:induction false} ForHeld(fs: seq<Func>, t: Tree, st: State, fuel: nat)
    requires t.For? && NoReturn(t)
    ensures Holds(ForLoop(fs, t, st, fuel), YieldsOfFor(fs, t, st, fuel), st)
    decreases fuel, t, 0
  {
    hide Eval, Yields;
    if fuel > 0 && !(st.ret || st.brk || st.err) {
      if t.test.Some? { LastHeld(fs, t.test.t, st, fuel - 1); }
      var a := if t.test.None? then Walk(st, 1) else Eval(fs, t.test.t, st, fuel - 1);
      var va := if t.test.None? then [] else Yields(fs, t.test.t, st, fuel - 1);
      if a.Walk? && a.v != 0 {
        var st1 := a.st.(cont := false);
        LastHeld(fs, t.body, st1, fuel - 1);
        var b := Eval(fs, t.body, st1, fuel - 1);
        var vb := Yields(fs, t.body, st1, fuel - 1);
        if b.Walk? {
          var st2 := b.st.(cont := false);
          if t.post.Some? { LastHeld(fs, t.post.t, st2, fuel - 1); }
          var c := if t.post.None? then Walk(st2, 0) else Eval(fs, t.post.t, st2, fuel - 1);
          var vc := if t.post.None? then [] else Yields(fs, t.post.t, st2, fuel - 1);
          if c.Walk? {
            ForHeld(fs, t, c.st, fuel - 1);
            var w, vd := ForLoop(fs, t, c.st, fuel - 1), YieldsOfFor(fs, t, c.st, fuel - 1);
            Then(st2, c.st, vc, w, vd);
            Then(st1, st2, vb, w, vc + vd);
            Then(st, st1, va, w, vb + (vc + vd));
          }
        }
      }
    }
  }

  // ---- and the meaning has no value ----

  predicate SilentEnd(m: Meaning) { m.Done? ==> !m.e.Returned? && !m.e.ReturnedNothing? }

  lemma {:induction false} NeverReturns(fs: seq<Func>, t: Tree, env: Env, w: World, depth: nat, fuel: nat)
    requires NoReturn(t)
    ensures SilentEnd(Sem(fs, t, env, w, depth, fuel))
    decreases fuel, t, 2
  {
    hide BinValue, UnValue, AssignValue, SemArgs, SemCall, SemBlock, SemWhile, SemFor;
    match t
    case If(c, y, n) =>
      var a := Operand(Sem(fs, c, env, w, depth, fuel));
      if a.Done? {
        NeverReturns(fs, y, a.env, a.w, depth, fuel);
        if n.Some? { NeverReturns(fs, n.t, a.env, a.w, depth, fuel); }
      }
    case While(_, _) => WhileNeverReturns(fs, t, env, w, depth, fuel);
    case For(i, _, _, _) =>
      if i.None? {
        ForNeverReturns(fs, t, env, w, depth, fuel);
      } else {
        NeverReturns(fs, i.t, env, w, depth, fuel);
        var a := Sem(fs, i.t, env, w, depth, fuel);
        if a.Done? { ForNeverReturns(fs, t, a.env, a.w, depth, fuel); }
      }
    case Call(n, args) => ArgsNotDone(fs, args, env, w, MAX_ARGS, depth, fuel);
    case Block(ss) => BlockNeverReturns(fs, ss, env, w, depth, fuel);
    case _ =>
  }

  lemma {:induction false} ArgsNotDone(fs: seq<Func>, args: Trees, env: Env, w: World, room: nat, depth: nat, fuel: nat)
    ensures var a := SemArgs(fs, args, env, w, room, depth, fuel); a.NotAll? ==> !a.m.Done?
    decreases args
  {
    hide Sem;
    if args.Cons? && room > 0 {
      var a := Operand(Sem(fs, args.head, env, w, depth, fuel));
      if a.Done? { ArgsNotDone(fs, args.tail, a.env, a.w, room - 1, depth, fuel); }
    }
  }

  lemma {:induction false} BlockNeverReturns(fs: seq<Func>, ss: Trees, env: Env, w: World, depth: nat, fuel: nat)
    requires NoReturns(ss)
    ensures SilentEnd(SemBlock(fs, ss, env, w, depth, fuel))
    decreases fuel, ss, 3
  {
    hide Sem;
    if ss.Cons? {
      NeverReturns(fs, ss.head, env, w, depth, fuel);
      var a := Sem(fs, ss.head, env, w, depth, fuel);
      if a.Done? { BlockNeverReturns(fs, ss.tail, a.env, a.w, depth, fuel); }
    }
  }

  lemma {:induction false} WhileNeverReturns(fs: seq<Func>, t: Tree, env: Env, w: World, depth: nat, fuel: nat)
    requires t.While? && NoReturn(t)
    ensures SilentEnd(SemWhile(fs, t, env, w, depth, fuel))
    decreases fuel, t, 0
  {
    hide Sem;
    if fuel > 0 {
      var a := Operand(Sem(fs, t.cond, env, w, depth, fuel - 1));
      if a.Done? {
        NeverReturns(fs, t.body, a.env, a.w, depth, fuel - 1);
        var b := Sem(fs, t.body, a.env, a.w, depth, fuel - 1);
        if b.Done? { WhileNeverReturns(fs, t, b.env, b.w, depth, fuel - 1); }
      }
    }
  }

  lemma {:induction false} ForNeverReturns(fs: seq<Func>, t: Tree, env: Env, w: World, depth: nat, fuel: nat)
    requires t.For? && NoReturn(t)
    ensures SilentEnd(SemFor(fs, t, env, w, depth, fuel))
    decreases fuel, t, 0
  {
    hide Sem;
    if fuel > 0 {
      var a := if t.test.None? then Done(Value(1), env, w) else Operand(Sem(fs, t.test.t, env, w, depth, fuel - 1));
      if a.Done? {
        NeverReturns(fs, t.body, a.env, a.w, depth, fuel - 1);
        var b := Sem(fs, t.body, a.env, a.w, depth, fuel - 1);
        if b.Done? {
          var c := if t.post.None? then Done(Normal, b.env, b.w) else Sem(fs, t.post.t, b.env, b.w, depth, fuel - 1);
          if c.Done? { ForNeverReturns(fs, t, c.env, c.w, depth, fuel - 1); }
        }
      }
    }
  }

  /** A function without a return statement returns the value of the last call it makes, or 0 if it makes none; it has
      no value of its own. */
  lemma FallsOffReturnsLastCall(fs: seq<Func>, t: Tree, vals: seq<int>, st: State, env: Env, w: World, depth: nat,
                                fuel: nat)
    requires t.Call? && Enters(fs, t, st) && fuel > 0 && NoReturn(fs[FindFunc(fs, t.name, 0)].body)
    ensures var f, r := fs[FindFunc(fs, t.name, 0)], CallFunction(fs, t, vals, st, fuel);
      r.Walk? ==> r.v == Last(Yields(fs, f.body, Entered(f, vals, st), fuel - 1), 0)
    ensures var m := SemCall(fs, t, vals, env, w, depth, fuel); m.Done? ==> m.e.NoValue?
  {
    hide Eval, Yields, Sem, NoReturn, Frame, Bind;
    var f := fs[FindFunc(fs, t.name, 0)];
    LastHeld(fs, f.body, Entered(f, vals, st), fuel - 1);
    NeverReturns(fs, f.body, Env(Frame(f.params, vals, map[]), Min(|f.params|, |vals|)), w, depth + 1, fuel - 1);
  }
}
