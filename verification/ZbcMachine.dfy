/** The interpreter on its node table: a recursive walk that reads rows and updates frames and flags in place. */
module ZbcMachines {
  import opened ZbcSyntax
  import opened ZbcGrammar
  import opened ZbcNodes
  import opened ZbcStmtSteps
  import opened ZbcTable
  import opened ZbcEval
  import opened ZbcQuirks

  class Machine {
    const nodes: array<Node>
    const funcs: seq<FuncRow>
    /** One list of at most MAX_VARS variables for each call in progress. */
    const scopes: array<seq<Cell>>
    var depth: nat
    var hadError: bool
    var hadReturn: bool
    var returnValue: int
    var hadBreak: bool
    var hadContinue: bool
    var out: seq<Event>
    var keys: seq<int>
    /** The program in the tables. */
    ghost const fs: seq<Func>

    constructor (nodes: array<Node>, funcs: seq<FuncRow>, keys: seq<int>, ghost fs: seq<Func>)
      requires funcs == FuncTable(fs) && FewParams(fs) && |ProgramRows(fs)| <= nodes.Length
      requires nodes[..|ProgramRows(fs)|] == ProgramRows(fs)
      ensures Valid() && Now() == Initial(keys) && this.fs == fs && fresh(scopes) && this.nodes == nodes
    {
      this.nodes, this.funcs, this.fs, this.keys := nodes, funcs, fs, keys;
      scopes := new seq<Cell>[MAX_CALL](_ => []);
      depth, hadError, hadReturn, returnValue, hadBreak, hadContinue, out := 0, false, false, 0, false, false, [];
    }

    ghost predicate Valid()
      reads this, nodes, scopes
    {
      && scopes.Length == MAX_CALL && depth <= MAX_CALL && funcs == FuncTable(fs) && FewParams(fs)
      && |ProgramRows(fs)| <= nodes.Length && nodes[..|ProgramRows(fs)|] == ProgramRows(fs)
    }

    ghost function Now(): State
      requires Valid()
      reads this, nodes, scopes
    {
      State(scopes[..depth], out, keys, hadError, hadReturn, returnValue, hadBreak, hadContinue)
    }

    /** A row of the program. */
    function Row(i: nat): Node
      requires Valid() && i < |ProgramRows(fs)|
      reads this, nodes, scopes
    {
      nodes[i]
    }

    /** The variable a name stands for in the top frame, or -1. */
    method FindVar(name: string) returns (k: int)
      requires Valid()
      ensures k == Find(Top(Now()), name)
    {
      hide ProgramRows, FuncTable;
      if depth == 0 {
        return -1;
      }
      var cells := scopes[depth - 1];
      k := |cells| - 1;
      assert cells[..k + 1] == cells;
      while k >= 0
        invariant -1 <= k < |cells| && Find(cells, name) == Find(cells[..k + 1], name)
      {
        if cells[k].name == name {
          return;
        }
        assert cells[..k + 1][..k] == cells[..k];
        k := k - 1;
      }
    }

    method SetLocal(name: string, v: int)
      requires Valid() && depth > 0
      modifies `hadError, scopes
      ensures Valid() && Now() == ZbcEval.SetLocal(old(Now()), name, v)
    {
      hide ProgramRows, FuncTable;
      if |scopes[depth - 1]| >= MAX_VARS {
        hadError := true;
        return;
      }
      scopes[depth - 1] := scopes[depth - 1] + [Cell(name, v)];
    }

    /** Tree `t` lies in the table from row `lo` on. */
    ghost predicate Holds(t: Tree, lo: nat, next: int)
      reads this, nodes, scopes
    {
      Valid() && Laid(ProgramRows(fs), t, lo, next)
    }

    /** Walking tree `t` from its root row: `ok` unless the fuel is used up. */
    method Eval(idx: int, fuel: nat, ghost t: Tree, ghost lo: nat, ghost next: int) returns (ok: bool, v: int)
      requires Holds(t, lo, next) && idx == Root(t, lo) && depth > 0
      modifies this, scopes
      ensures Valid() && (ok ==> depth == old(depth)) && Ended(ok, v, ZbcEval.Eval(fs, t, old(Now()), fuel), Now())
      decreases fuel, Size(t), 2
    {
      hide ProgramRows, FuncTable, Laid, Root, Find, ZbcEval.EvalArgs, ZbcEval.EvalBlock, WhileLoop, ForLoop,
           ZbcEval.CallFunction, Store, BinValue;
      if hadError {
        return true, 0;
      }
      RootRow(ProgramRows(fs), t, lo, next);
      var n := Row(idx);
      if n.kind == NNum || n.kind == NStr || n.kind == NBreak || n.kind == NCont {
        ok, v := EvalLeaf(idx, fuel, t, lo, next);
      } else if n.kind == NVar {
        ok, v := EvalVar(idx, fuel, t, lo, next);
      } else if n.kind == NAssign {
        ok, v := EvalAssign(idx, fuel, t, lo, next);
      } else if n.kind == NBin {
        ok, v := EvalBin(idx, fuel, t, lo, next);
      } else if n.kind == NUn {
        ok, v := EvalUn(idx, fuel, t, lo, next);
      } else if n.kind == NCall {
        ok, v := EvalCall(idx, fuel, t, lo, next);
      } else if n.kind == NIf {
        ok, v := EvalIf(idx, fuel, t, lo, next);
      } else if n.kind == NWhile {
        ok, v := EvalWhile(idx, fuel, t, lo, next);
      } else if n.kind == NFor {
        ok, v := EvalFor(idx, fuel, t, lo, next);
      } else if n.kind == NBlock {
        ok, v := EvalBlock(idx, fuel, t, lo, next);
      } else if n.kind == NReturn {
        ok, v := EvalReturn(idx, fuel, t, lo, next);
      } else {
        LaidExprStmt(ProgramRows(fs), t, lo, next);
        ok, v := Eval(n.c0, fuel, t.e, lo, -1);
      }
    }

    method EvalLeaf(idx: int, fuel: nat, ghost t: Tree, ghost lo: nat, ghost next: int) returns (ok: bool, v: int)
      requires Holds(t, lo, next) && idx == Root(t, lo) && depth > 0 && !hadError
      requires t.Num? || t.Str? || t.Break? || t.Cont?
      modifies `hadBreak, `hadContinue
      ensures Valid() && depth == old(depth) && Ended(ok, v, ZbcEval.Eval(fs, t, old(Now()), fuel), Now())
    {
      hide ProgramRows, FuncTable, Laid, Find;
      RootRow(ProgramRows(fs), t, lo, next);
      LaidLeaf(ProgramRows(fs), t, lo, next);
      var n := Row(idx);
      if n.kind == NBreak {
        hadBreak := true;
      } else if n.kind == NCont {
        hadContinue := true;
      }
      ok, v := true, if n.kind == NNum then n.ival else if n.kind == NStr then n.strOff else 0;
    }

    method EvalUn(idx: int, fuel: nat, ghost t: Tree, ghost lo: nat, ghost next: int) returns (ok: bool, v: int)
      requires Holds(t, lo, next) && idx == Root(t, lo) && depth > 0 && t.Un? && !hadError
      modifies this, scopes
      ensures Valid() && (ok ==> depth == old(depth)) && Ended(ok, v, ZbcEval.Eval(fs, t, old(Now()), fuel), Now())
      decreases fuel, Size(t), 1
    {
      hide ProgramRows, FuncTable, Laid, Find, BinValue;
      RootRow(ProgramRows(fs), t, lo, next);
      LaidUn(ProgramRows(fs), t, lo, next);
      var n := Row(idx);
      ok, v := Eval(n.c0, fuel, t.e, lo + 1, -1);
      v := if n.op == TOp(Minus) then Wrap32(-v) else Truth(v == 0);
    }

    method EvalVar(idx: int, fuel: nat, ghost t: Tree, ghost lo: nat, ghost next: int) returns (ok: bool, v: int)
      requires Holds(t, lo, next) && idx == Root(t, lo) && depth > 0 && t.Var? && !hadError
      modifies this, scopes
      ensures Valid() && depth == old(depth) && Ended(ok, v, Visit(fs, t, old(Now()), fuel), Now())
    {
      hide ProgramRows, FuncTable, Laid, Find;
      RootRow(ProgramRows(fs), t, lo, next);
      LaidLeaf(ProgramRows(fs), t, lo, next);
      var k := FindVar(Row(idx).name);
      if k < 0 {
        hadError := true;
        return true, 0;
      }
      ok, v := true, scopes[depth - 1][k].value;
    }

    method EvalAssign(idx: int, fuel: nat, ghost t: Tree, ghost lo: nat, ghost next: int) returns (ok: bool, v: int)
      requires Holds(t, lo, next) && idx == Root(t, lo) && depth > 0 && (t.Assign? || t.Decl?) && !hadError
      modifies this, scopes
      ensures Valid() && (ok ==> depth == old(depth)) && Ended(ok, v, Visit(fs, t, old(Now()), fuel), Now())
      decreases fuel, Size(t), 1
    {
      hide ProgramRows, FuncTable, Laid, Root, Find, AssignValue, Store;
      ghost var rhs: Tree, at: nat;
      if t.Assign? {
        LaidAssign(ProgramRows(fs), t, lo, next);
        rhs, at := t.rhs, lo + 1;
      } else {
        LaidDecl(ProgramRows(fs), t, lo, next);
        rhs, at := if t.init.None? then Num(0) else t.init.t, if t.init.None? then idx + 2 else lo;
      }
      var n := Row(idx);
      var lhs := Row(n.c0);
      assert Size(rhs) < Size(t);
      ok, v := Eval(n.c1, fuel, rhs, at, -1);
      if !ok {
        return false, 0;
      }
      v := Assign(n.op.aop, lhs.name, lhs.ival == 1, v);
    }

    /** The value `v` assigned to a variable; `decl` makes it when there is none. */
    method Assign(op: AssignOp, name: string, decl: bool, v: int) returns (x: int)
      requires Valid() && depth > 0
      modifies `hadError, scopes
      ensures Valid() && Store(op, name, decl, old(Now()), v) == Walk(Now(), x)
    {
      hide ProgramRows, FuncTable, Find, AssignValue;
      var k := FindVar(name);
      if k < 0 {
        if decl {
          SetLocal(name, v);
        } else {
          hadError := true;
        }
        return v;
      }
      x := AssignValue(op, scopes[depth - 1][k].value, v);
      scopes[depth - 1] := scopes[depth - 1][k := Cell(name, x)];
    }

    method EvalBin(idx: int, fuel: nat, ghost t: Tree, ghost lo: nat, ghost next: int) returns (ok: bool, v: int)
      requires Holds(t, lo, next) && idx == Root(t, lo) && depth > 0 && t.Bin? && !hadError
      modifies this, scopes
      ensures Valid() && (ok ==> depth == old(depth)) && Ended(ok, v, Visit(fs, t, old(Now()), fuel), Now())
      decreases fuel, Size(t), 1
    {
      hide ProgramRows, FuncTable, Laid, Root, BinValue;
      LaidBin(ProgramRows(fs), t, lo, next);
      var n := Row(idx);
      var a, b;
      ok, a := Eval(n.c0, fuel, t.l, lo, -1);
      if !ok {
        return false, 0;
      }
      if n.op == TOp(And) && a == 0 {
        return true, 0;
      }
      if n.op == TOp(Or) && a != 0 {
        return true, 1;
      }
      ok, b := Eval(n.c1, fuel, t.r, lo + Size(t.l), -1);
      v := BinValue(n.op.op, a, b);
    }

    method EvalIf(idx: int, fuel: nat, ghost t: Tree, ghost lo: nat, ghost next: int) returns (ok: bool, v: int)
      requires Holds(t, lo, next) && idx == Root(t, lo) && depth > 0 && t.If? && !hadError
      modifies this, scopes
      ensures Valid() && (ok ==> depth == old(depth)) && Ended(ok, v, Visit(fs, t, old(Now()), fuel), Now())
      decreases fuel, Size(t), 1
    {
      hide ProgramRows, FuncTable, Laid, Root;
      LaidIf(ProgramRows(fs), t, lo, next);
      var n := Row(idx);
      var c, x;
      ok, c := Eval(n.c0, fuel, t.cond, lo, -1);
      if !ok {
        return false, 0;
      }
      if c != 0 {
        ok, x := Eval(n.c1, fuel, t.yes, lo + Size(t.cond), -1);
      } else if n.c2 >= 0 {
        ok, x := Eval(n.c2, fuel, t.no.t, lo + Size(t.cond) + Size(t.yes), -1);
      }
      v := 0;
    }

    method EvalWhile(idx: int, fuel: nat, ghost t: Tree, ghost lo: nat, ghost next: int) returns (ok: bool, v: int)
      requires Holds(t, lo, next) && idx == Root(t, lo) && depth > 0 && t.While? && !hadError
      modifies this, scopes
      ensures Valid() && (ok ==> depth == old(depth)) && Ended(ok, v, Visit(fs, t, old(Now()), fuel), Now())
      decreases fuel, Size(t), 0
    {
      hide ProgramRows, FuncTable, Laid, Root, Visit, ZbcEval.Eval;
      LaidWhile(ProgramRows(fs), t, lo, next);
      VisitLoop(fs, t, Now(), fuel);
      ghost var st := Now();
      var n := Row(idx);
      var left: nat := fuel;
      while !hadReturn && !hadBreak && !hadError
        invariant left <= fuel && Valid() && depth == old(depth)
        invariant WhileLoop(fs, t, st, fuel) == WhileLoop(fs, t, Now(), left)
        decreases left
      {
        if left == 0 {
          return false, 0;
        }
        left := left - 1;
        var c, x;
        ok, c := Eval(n.c0, left, t.cond, lo, -1);
        if !ok {
          return false, 0;
        }
        if c == 0 {
          break;
        }
        hadContinue := false;
        ok, x := Eval(n.c1, left, t.body, lo + Size(t.cond), -1);
        if !ok {
          return false, 0;
        }
      }
      hadBreak := false;
      ok, v := true, 0;
    }

    method EvalFor(idx: int, fuel: nat, ghost t: Tree, ghost lo: nat, ghost next: int) returns (ok: bool, v: int)
      requires Holds(t, lo, next) && idx == Root(t, lo) && depth > 0 && t.For? && !hadError
      modifies this, scopes
      ensures Valid() && (ok ==> depth == old(depth)) && Ended(ok, v, Visit(fs, t, old(Now()), fuel), Now())
      decreases fuel, Size(t), 1
    {
      hide ProgramRows, FuncTable, Laid, Root, ZbcEval.Eval, ForLoop;
      LaidFor(ProgramRows(fs), t, lo, next);
      var n := Row(idx);
      if n.c0 >= 0 {
        var x;
        ok, x := Eval(n.c0, fuel, t.start.t, lo, -1);
        if !ok {
          return false, 0;
        }
      }
      ok, v := EvalForLoop(n, fuel, t, lo, next);
    }

    method EvalForLoop(n: Node, fuel: nat, ghost t: Tree, ghost lo: nat, ghost next: int) returns (ok: bool, v: int)
      requires Holds(t, lo, next) && depth > 0 && t.For? && n == ForRow(t.start, t.test, t.post, t.body, lo, next)
      modifies this, scopes
      ensures Valid() && (ok ==> depth == old(depth)) && Ended(ok, v, ForLoop(fs, t, old(Now()), fuel), Now())
      decreases fuel, Size(t), 0
    {
      hide ProgramRows, FuncTable, Laid, Root, ZbcEval.Eval;
      LaidFor(ProgramRows(fs), t, lo, next);
      ghost var st := Now();
      ghost var x := lo + OptSize(t.start);
      ghost var y := x + OptSize(t.test);
      ghost var z := y + OptSize(t.post);
      var left: nat := fuel;
      while !hadReturn && !hadBreak && !hadError
        invariant left <= fuel && Valid() && depth == old(depth)
        invariant ForLoop(fs, t, st, fuel) == ForLoop(fs, t, Now(), left)
        decreases left
      {
        if left == 0 {
          return false, 0;
        }
        left := left - 1;
        var c, w := 1, 0;
        if n.c1 >= 0 {
          ok, c := Eval(n.c1, left, t.test.t, x, -1);
          if !ok {
            return false, 0;
          }
        }
        if c == 0 {
          break;
        }
        hadContinue := false;
        ok, w := Eval(n.c3, left, t.body, z, -1);
        if !ok {
          return false, 0;
        }
        hadContinue := false;
        if n.c2 >= 0 {
          ok, w := Eval(n.c2, left, t.post.t, y, -1);
          if !ok {
            return false, 0;
          }
        }
      }
      hadBreak := false;
      ok, v := true, 0;
    }

    method EvalBlock(idx: int, fuel: nat, ghost t: Tree, ghost lo: nat, ghost next: int) returns (ok: bool, v: int)
      requires Holds(t, lo, next) && idx == Root(t, lo) && depth > 0 && t.Block? && !hadError
      modifies this, scopes
      ensures Valid() && (ok ==> depth == old(depth)) && Ended(ok, v, Visit(fs, t, old(Now()), fuel), Now())
      decreases fuel, Size(t), 1
    {
      hide ProgramRows, FuncTable, Laid, Root, ZbcEval.Eval, ListLaid, Visit;
      LaidBlock(ProgramRows(fs), t, lo, next);
      VisitLoop(fs, t, Now(), fuel);
      ghost var st, rest, at: nat := Now(), t.body_, lo + 1;
      var c := Row(idx).c0;
      while c >= 0 && !hadReturn && !hadBreak && !hadContinue && !hadError
        invariant Valid() && depth == old(depth) && c == FirstRoot(rest, at) && ListLaid(ProgramRows(fs), rest, at)
        invariant ListSize(rest) <= ListSize(t.body_)
        invariant ZbcEval.EvalBlock(fs, t.body_, st, fuel) == ZbcEval.EvalBlock(fs, rest, Now(), fuel)
        decreases rest
      {
        ghost var after := FirstRoot(rest.tail, at + Size(rest.head));
        LaidList(ProgramRows(fs), rest, at);
        LaidNext(ProgramRows(fs), rest.head, at, after);
        var x;
        ok, x := Eval(c, fuel, rest.head, at, after);
        if !ok {
          return false, 0;
        }
        c := Row(c).next;
        at := at + Size(rest.head);
        rest := rest.tail;
      }
      ok, v := true, 0;
    }

    method EvalReturn(idx: int, fuel: nat, ghost t: Tree, ghost lo: nat, ghost next: int) returns (ok: bool, v: int)
      requires Holds(t, lo, next) && idx == Root(t, lo) && depth > 0 && t.Return? && !hadError
      modifies this, scopes
      ensures Valid() && (ok ==> depth == old(depth)) && Ended(ok, v, Visit(fs, t, old(Now()), fuel), Now())
      decreases fuel, Size(t), 1
    {
      hide ProgramRows, FuncTable, Laid, Root, ZbcEval.Eval;
      LaidReturn(ProgramRows(fs), t, lo, next);
      var n := Row(idx);
      if n.c0 >= 0 {
        var x;
        ok, x := Eval(n.c0, fuel, t.value.t, lo + 1, -1);
        if !ok {
          return false, 0;
        }
        returnValue := x;
      }
      hadReturn := true;
      ok, v := true, returnValue;
    }

    method EvalCall(idx: int, fuel: nat, ghost t: Tree, ghost lo: nat, ghost next: int) returns (ok: bool, v: int)
      requires Holds(t, lo, next) && idx == Root(t, lo) && depth > 0 && t.Call? && !hadError
      modifies this, scopes
      ensures Valid() && (ok ==> depth == old(depth)) && Ended(ok, v, Visit(fs, t, old(Now()), fuel), Now())
      decreases fuel, Size(t), 1
    {
      hide ProgramRows, FuncTable, Laid, Root, ZbcEval.Eval, ListLaid, ZbcEval.CallFunction, ZbcEval.EvalArgs;
      LaidCall(ProgramRows(fs), t, lo, next);
      var n := Row(idx);
      if n.name == "puts" {
        ok, v := true, 0;
        if n.c0 >= 0 {
          LaidList(ProgramRows(fs), t.args, lo + 1);
          RootRow(ProgramRows(fs), t.args.head, lo + 1, FirstRoot(t.args.tail, lo + 1 + Size(t.args.head)));
        }
        if n.c0 < 0 || Row(n.c0).kind != NStr {
          hadError := true;
        } else {
          LaidLeaf(ProgramRows(fs), t.args.head, lo + 1, FirstRoot(t.args.tail, lo + 1 + Size(t.args.head)));
          out := out + [Line(Row(n.c0).strOff)];
        }
        return;
      }
      var vals;
      ok, vals := EvalArgs(n.c0, fuel, t, lo, next);
      if !ok {
        return false, 0;
      }
      ok, v := CallFunction(n.name, vals, fuel, t);
    }

    /** At most eight argument values, from left to right. */
    method EvalArgs(first: int, fuel: nat, ghost t: Tree, ghost lo: nat, ghost next: int)
      returns (ok: bool, vals: seq<int>)
      requires Holds(t, lo, next) && depth > 0 && t.Call? && first == FirstRoot(t.args, lo + 1)
      modifies this, scopes
      ensures Valid() && (ok ==> depth == old(depth))
      ensures var a := ZbcEval.EvalArgs(fs, t.args, old(Now()), MAX_ARGS, fuel);
              (ok <==> a.Values?) && (ok ==> a == Values(Now(), vals))
      decreases fuel, Size(t), 0
    {
      hide ProgramRows, FuncTable, Laid, Root, ZbcEval.Eval, ListLaid;
      LaidCall(ProgramRows(fs), t, lo, next);
      ghost var st, rest, at: nat := Now(), t.args, lo + 1;
      ok, vals := true, [];
      var c := first;
      PrefixNone(ZbcEval.EvalArgs(fs, rest, st, MAX_ARGS, fuel));
      while c >= 0 && |vals| < MAX_ARGS
        invariant Valid() && depth == old(depth) && c == FirstRoot(rest, at) && ListLaid(ProgramRows(fs), rest, at)
        invariant ok
        invariant ListSize(rest) <= ListSize(t.args) && |vals| <= MAX_ARGS
        invariant ZbcEval.EvalArgs(fs, t.args, st, MAX_ARGS, fuel)
               == Prefix(vals, ZbcEval.EvalArgs(fs, rest, Now(), MAX_ARGS - |vals|, fuel))
        decreases rest
      {
        ghost var after := FirstRoot(rest.tail, at + Size(rest.head));
        LaidList(ProgramRows(fs), rest, at);
        LaidNext(ProgramRows(fs), rest.head, at, after);
        var x;
        ghost var before := vals;
        ok, x := Eval(c, fuel, rest.head, at, after);
        if !ok {
          return false, [];
        }
        PrefixOne(vals, x, ZbcEval.EvalArgs(fs, rest.tail, Now(), MAX_ARGS - |vals| - 1, fuel));
        vals := vals + [x];
        c := Row(c).next;
        at := at + Size(rest.head);
        rest := rest.tail;
      }
      assert vals + [] == vals;
    }

    method CallNative(name: string, vals: seq<int>) returns (ok: bool, v: int)
      requires Valid() && IsNative(name)
      modifies `out, `keys
      ensures Valid() && Ended(ok, v, Native(name, vals, old(Now())), Now())
    {
      hide ProgramRows, FuncTable;
      ok, v := true, 0;
      if name == "getchar" {
        if keys == [] {
          return false, 0;
        }
        v := keys[0];
        keys := keys[1..];
      } else if |vals| > 0 {
        out := out + [if name == "print" then Printed(vals[0]) else Char(vals[0])];
      }
    }

    method FindFunc(name: string) returns (k: int)
      requires Valid()
      ensures k == ZbcEval.FindFunc(fs, name, 0)
    {
      hide ProgramRows;
      k := 0;
      while k < |funcs|
        invariant 0 <= k <= |funcs| && ZbcEval.FindFunc(fs, name, 0) == ZbcEval.FindFunc(fs, name, k)
      {
        if funcs[k].name == name {
          return;
        }
        k := k + 1;
      }
      k := -1;
    }

    /** A new frame with the parameters that have arguments. */
    method Enter(ghost f: Func, row: FuncRow, vals: seq<int>)
      requires Valid() && depth < MAX_CALL && row.params == f.params && |row.params| <= MAX_PARAMS
      modifies this, scopes
      ensures Valid() && Now() == Entered(f, vals, old(Now()))
    {
      hide ProgramRows, FuncTable, Bind, ZbcEval.SetLocal;
      ghost var st := Now();
      scopes[depth] := [];
      depth := depth + 1;
      var p := 0;
      while p < |row.params| && p < |vals|
        invariant 0 <= p <= |row.params| && p <= |vals| && Valid() && depth == |st.scopes| + 1
        invariant Now() == st.(scopes := st.scopes + [Bind(f.params, vals)[..p]])
      {
        BindAt(f.params, vals, p);
        BoundOne(st, Bind(f.params, vals), p);
        SetLocal(row.params[p], vals[p]);
        p := p + 1;
      }
      assert Bind(f.params, vals)[..p] == Bind(f.params, vals);
      hadReturn, returnValue := false, 0;
    }

    method CallFunction(name: string, vals: seq<int>, fuel: nat, ghost t: Tree) returns (ok: bool, v: int)
      requires Valid() && t.Call? && t.name == name
      modifies this, scopes
      ensures Valid() && (ok ==> depth == old(depth))
      ensures Ended(ok, v, ZbcEval.CallFunction(fs, t, vals, old(Now()), fuel), Now())
      decreases fuel, Size(t), 0
    {
      hide ProgramRows, Laid, Root, ZbcEval.Eval, Bind;
      if IsNative(name) {
        ok, v := CallNative(name, vals);
        return;
      }
      var k := FindFunc(name);
      if k < 0 || depth >= MAX_CALL {
        hadError := true;
        return true, 0;
      }
      if fuel == 0 {
        return false, 0;
      }
      ghost var f := fs[k];
      Enter(f, funcs[k], vals);
      BodyLaid(fs, k);
      var x;
      ok, x := Eval(funcs[k].body, fuel - 1, f.body, BodyAt(fs, k), -1);
      if !ok {
        return false, 0;
      }
      hadReturn := false;
      depth := depth - 1;
      v := returnValue;
    }
  }

  /** One more variable in a frame being filled. */
  lemma BoundOne(st: State, b: seq<Cell>, p: nat)
    requires p < |b| && p < MAX_VARS
    ensures ZbcEval.SetLocal(st.(scopes := st.scopes + [b[..p]]), b[p].name,
        b[p].value) == st.(scopes := st.scopes + [b[..p + 1]])
  {
    assert b[..p] + [b[p]] == b[..p + 1];
    var t := st.(scopes := st.scopes + [b[..p]]);
    assert t.scopes[|t.scopes| - 1 := b[..p + 1]] == st.scopes + [b[..p + 1]];
  }

  predicate FewParams(fs: seq<Func>) {
    forall k | 0 <= k < |fs| :: |fs[k].params| <= MAX_PARAMS
  }

  /** What a walk is due to give: everything, or nothing when it runs out of fuel. */
  ghost predicate Ended(ok: bool, v: int, w: Walk, now: State) {
    (ok <==> w.Walk?) && (ok ==> w == Walk(now, v))
  }

  lemma VisitLoop(fs: seq<Func>, t: Tree, st: State, fuel: nat)
    ensures t.While? ==> Visit(fs, t, st, fuel) == WhileLoop(fs, t, st, fuel)
    ensures t.Block? ==> Visit(fs, t, st, fuel) == ZbcEval.EvalBlock(fs, t.body_, st, fuel)
  {
  }

  function Prefix(vals: seq<int>, r: Values): Values { if r.NoFuel? then r else Values(r.st, vals + r.vals) }

  lemma PrefixNone(r: Values)
    ensures Prefix([], r) == r
  {
  }

  lemma PrefixOne(vals: seq<int>, x: int, r: Values)
    ensures Prefix(vals, Prefix([x], r)) == Prefix(vals + [x], r)
  {
  }

  lemma {:induction false} BindAt(params: seq<string>, vals: seq<int>, p: nat)
    requires p < |params| && p < |vals|
    ensures Bind(params, vals)[p] == Cell(params[p], vals[p])
  {
    if p > 0 { BindAt(params[1..], vals[1..], p - 1); }
  }
}
