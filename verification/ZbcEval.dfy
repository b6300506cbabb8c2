/** The flag-driven tree walk of the interpreter, and the structured semantics it is measured against. */
module ZbcEval {
  import opened ZbcSyntax

  const MAX_CALL := 8
  const MAX_VARS := 32
  const MAX_ARGS := 8

  // ---- 32-bit arithmetic ----

  /** The signed 32-bit number congruent to `x`. */
  function Wrap32(x: int): (r: int)
    ensures -0x8000_0000 <= r < 0x8000_0000
  {
    (x + 0x8000_0000) % 0x1_0000_0000 - 0x8000_0000
  }

  /** Division of C: the quotient is cut off towards zero. */
  function Cut(a: int, b: int): int
    requires b != 0
  {
    if a >= 0 then (if b > 0 then a / b else -(a / -b)) else if b > 0 then -(-a / b) else -a / -b
  }

  function Pow2(n: nat): (p: nat)
    ensures p > 0
  {
    if n == 0 then 1 else 2 * Pow2(n - 1)
  }

  function Unsigned(a: int): bv32 { (a % 0x1_0000_0000) as bv32 }

  function Both(a: int, b: int): int { (Unsigned(a) & Unsigned(b)) as int }
  function Either(a: int, b: int): int { (Unsigned(a) | Unsigned(b)) as int }
  function OneOf(a: int, b: int): int { Xor(Unsigned(a), Unsigned(b)) as int }
  function Xor(u: bv32, v: bv32): bv32 { u ^ v }

  function Truth(b: bool): int { if b then 1 else 0 }

  /** Overflow wraps around, a division by zero gives 0, shift counts are taken modulo 32. */
  function BinValue(op: BinOp, a: int, b: int): int {
    match op
    case Plus => Wrap32(a + b)
    case Minus => Wrap32(a - b)
    case Star => Wrap32(a * b)
    case Slash => if b == 0 then 0 else Wrap32(Cut(a, b))
    case Pct => if b == 0 then 0 else Wrap32(a - b * Cut(a, b))
    case Eq => Truth(a == b)
    case Neq => Truth(a != b)
    case Lt => Truth(a < b)
    case Gt => Truth(a > b)
    case Le => Truth(a <= b)
    case Ge => Truth(a >= b)
    case BitAnd => Wrap32(Both(a, b))
    case BitOr => Wrap32(Either(a, b))
    case BitXor => Wrap32(OneOf(a, b))
    case Shl => Wrap32(a * Pow2(b % 32))
    case Shr => a / Pow2(b % 32)
    case And => Truth(a != 0 && b != 0)
    case Or => Truth(a != 0 || b != 0)
  }

  function UnValue(op: UnOp, a: int): int {
    match op
    case Neg => Wrap32(-a)
    case Not => Truth(a == 0)
  }

  function AssignValue(op: AssignOp, was: int, v: int): int {
    match op
    case Set => v
    case AddTo => BinValue(Plus, was, v)
    case SubFrom => BinValue(Minus, was, v)
    case MulBy => BinValue(Star, was, v)
    case DivBy => BinValue(Slash, was, v)
  }

  // ---- the interpreter's state ----

  datatype Cell = Cell(name: string, value: int)

  /** What a program writes: a number and a newline, a character, a string of the string table and a newline. */
  datatype Event = Printed(v: int) | Char(v: int) | Line(off: int)

  /** Frames of variables, output, keys still to be pressed, and the flags of the tree walk. */
  datatype State = State(scopes: seq<seq<Cell>>, out: seq<Event>, keys: seq<int>,
                         err: bool, ret: bool, rv: int, brk: bool, cont: bool)

  /** The result of a walk, unless it runs out of fuel. */
  datatype Walk = Walk(st: State, v: int) | OutOfFuel

  function Top(st: State): seq<Cell> {
    if st.scopes == [] then [] else st.scopes[|st.scopes| - 1]
  }

  function WithTop(st: State, cells: seq<Cell>): State {
    if st.scopes == [] then st else st.(scopes := st.scopes[|st.scopes| - 1 := cells])
  }

  /** The cell a name stands for: the last one so called, or -1. */
  function Find(cells: seq<Cell>, n: string): (k: int)
    ensures -1 <= k < |cells| && (k >= 0 ==> cells[k].name == n)
    ensures forall j | k < j < |cells| :: cells[j].name != n
  {
    if cells == [] then -1
    else if cells[|cells| - 1].name == n then |cells| - 1
    else Find(cells[..|cells| - 1], n)
  }

  function SetLocal(st: State, n: string, v: int): State {
    if |Top(st)| >= MAX_VARS then st.(err := true) else WithTop(st, Top(st) + [Cell(n, v)])
  }

  /** The value `v` assigned to `n`; `decl` makes the variable when there is none. */
  function Store(op: AssignOp, n: string, decl: bool, st: State, v: int): Walk {
    var cells, k := Top(st), Find(Top(st), n);
    if k < 0 then Walk(if decl then SetLocal(st, n, v) else st.(err := true), v)
    else
      var x := AssignValue(op, cells[k].value, v);
      Walk(WithTop(st, cells[k := Cell(n, x)]), x)
  }

  function FindFunc(fs: seq<Func>, n: string, i: nat): (k: int)
    requires i <= |fs|
    ensures k == -1 || (i <= k < |fs| && fs[k].name == n)
    ensures forall j | i <= j < if k == -1 then |fs| else k :: fs[j].name != n
    decreases |fs| - i
  {
    if i == |fs| then -1 else if fs[i].name == n then i else FindFunc(fs, n, i + 1)
  }

  /** Parameters bound to arguments, as far as both go. */
  function Bind(params: seq<string>, vals: seq<int>): (cells: seq<Cell>)
    ensures |cells| == if |params| <= |vals| then |params| else |vals|
  {
    if params == [] || vals == [] then []
    else [Cell(params[0], vals[0])] + Bind(params[1..], vals[1..])
  }

  predicate IsNative(n: string) { n == "print" || n == "putchar" || n == "getchar" }

  function Native(n: string, vals: seq<int>, st: State): Walk
    requires IsNative(n)
  {
    if n == "getchar" then
      if st.keys == [] then OutOfFuel else Walk(st.(keys := st.keys[1..]), st.keys[0])
    else if vals == [] then Walk(st, 0)
    else Walk(st.(out := st.out + [if n == "print" then Printed(vals[0]) else Char(vals[0])]), 0)
  }

  // ---- the walk ----

  datatype Values = Values(st: State, vals: seq<int>) | NoFuel

  function Eval(fs: seq<Func>, t: Tree, st: State, fuel: nat): Walk
    decreases fuel, t, 2
  {
    if st.err then Walk(st, 0) else Visit(fs, t, st, fuel)
  }

  function Visit(fs: seq<Func>, t: Tree, st: State, fuel: nat): Walk
    decreases fuel, t, 1
  {
    match t
    case Num(v) => Walk(st, v)
    case Str(off) => Walk(st, off)
    case Var(n) =>
      var k := Find(Top(st), n);
      if k < 0 then Walk(st.(err := true), 0) else Walk(st, Top(st)[k].value)
    case Assign(op, n, rhs) =>
      var r := Eval(fs, rhs, st, fuel);
      if r.OutOfFuel? then r else Store(op, n, false, r.st, r.v)
    case Decl(n, i) =>
      var r := if i.None? then Walk(st, 0) else Eval(fs, i.t, st, fuel);
      if r.OutOfFuel? then r else Store(Set, n, true, r.st, r.v)
    case Bin(op, l, r) =>
      var a := Eval(fs, l, st, fuel);
      if a.OutOfFuel? then a
      else if op == And && a.v == 0 then Walk(a.st, 0)
      else if op == Or && a.v != 0 then Walk(a.st, 1)
      else
        var b := Eval(fs, r, a.st, fuel);
        if b.OutOfFuel? then b else Walk(b.st, BinValue(op, a.v, b.v))
    case Un(op, e) =>
      var a := Eval(fs, e, st, fuel);
      if a.OutOfFuel? then a else Walk(a.st, UnValue(op, a.v))
    case Call(n, args) =>
      if n == "puts" then
        if args.Nil? || !args.head.Str? then Walk(st.(err := true), 0)
            else Walk(st.(out := st.out + [Line(args.head.off)]), 0)
      else
        var a := EvalArgs(fs, args, st, MAX_ARGS, fuel);
        if a.NoFuel? then OutOfFuel else CallFunction(fs, t, a.vals, a.st, fuel)
    case If(c, y, n) =>
      var a := Eval(fs, c, st, fuel);
      if a.OutOfFuel? then a
      else if a.v != 0 then Void(Eval(fs, y, a.st, fuel))
      else if n.Some? then Void(Eval(fs, n.t, a.st, fuel))
      else Walk(a.st, 0)
    case While(_, _) => WhileLoop(fs, t, st, fuel)
    case For(i, _, _, _) =>
      var a := if i.None? then Walk(st, 0) else Eval(fs, i.t, st, fuel);
      if a.OutOfFuel? then a else ForLoop(fs, t, a.st, fuel)
    case Return(o) =>
      if o.None? then Walk(st.(ret := true), st.rv)
      else
        var a := Eval(fs, o.t, st, fuel);
        if a.OutOfFuel? then a else Walk(a.st.(rv := a.v, ret := true), a.v)
    case Break => Walk(st.(brk := true), 0)
    case Cont => Walk(st.(cont := true), 0)
    case Block(ss) => EvalBlock(fs, ss, st, fuel)
    case ExprStmt(e) => Eval(fs, e, st, fuel)
  }

  function Void(w: Walk): Walk { if w.OutOfFuel? then w else Walk(w.st, 0) }

  /** The first `room` arguments, from left to right; further ones are not looked at. */
  function EvalArgs(fs: seq<Func>, args: Trees, st: State, room: nat, fuel: nat): Values
    decreases fuel, args, 3
  {
    if args.Nil? || room == 0 then Values(st, [])
    else
      var a := Eval(fs, args.head, st, fuel);
      if a.OutOfFuel? then NoFuel
      else
        var rest := EvalArgs(fs, args.tail, a.st, room - 1, fuel);
        if rest.NoFuel? then NoFuel else Values(rest.st, [a.v] + rest.vals)
  }

  function EvalBlock(fs: seq<Func>, ss: Trees, st: State, fuel: nat): Walk
    decreases fuel, ss, 3
  {
    if ss.Nil? || st.ret || st.brk || st.cont || st.err then Walk(st, 0)
    else
      var a := Eval(fs, ss.head, st, fuel);
      if a.OutOfFuel? then a else EvalBlock(fs, ss.tail, a.st, fuel)
  }

  function WhileLoop(fs: seq<Func>, t: Tree, st: State, fuel: nat): Walk
    requires t.While?
    decreases fuel, t, 0
  {
    if st.ret || st.brk || st.err then Walk(st.(brk := false), 0)
    else if fuel == 0 then OutOfFuel
    else
      var a := Eval(fs, t.cond, st, fuel - 1);
      if a.OutOfFuel? then a
      else if a.v == 0 then Walk(a.st.(brk := false), 0)
      else
        var b := Eval(fs, t.body, a.st.(cont := false), fuel - 1);
        if b.OutOfFuel? then b else WhileLoop(fs, t, b.st, fuel - 1)
  }

  function ForLoop(fs: seq<Func>, t: Tree, st: State, fuel: nat): Walk
    requires t.For?
    decreases fuel, t, 0
  {
    if st.ret || st.brk || st.err then Walk(st.(brk := false), 0)
    else if fuel == 0 then OutOfFuel
    else
      var a := if t.test.None? then Walk(st, 1) else Eval(fs, t.test.t, st, fuel - 1);
      if a.OutOfFuel? then a
      else if a.v == 0 then Walk(a.st.(brk := false), 0)
      else
        var b := Eval(fs, t.body, a.st.(cont := false), fuel - 1);
        if b.OutOfFuel? then b
        else
          var c := if t.post.None? then Walk(b.st.(cont := false), 0)
              else Eval(fs, t.post.t, b.st.(cont := false), fuel - 1);
          if c.OutOfFuel? then c else ForLoop(fs, t, c.st, fuel - 1)
  }

  /** The state a called function starts in. */
  function Entered(f: Func, vals: seq<int>, st: State): State {
    st.(scopes := st.scopes + [Bind(f.params, vals)], ret := false, rv := 0)
  }

  function CallFunction(fs: seq<Func>, t: Tree, vals: seq<int>, st: State, fuel: nat): Walk
    requires t.Call?
    decreases fuel, t, 0
  {
    if IsNative(t.name) then Native(t.name, vals, st)
    else
      var k := FindFunc(fs, t.name, 0);
      if k < 0 || |st.scopes| >= MAX_CALL then Walk(st.(err := true), 0)
      else if fuel == 0 then OutOfFuel
      else
        var r := Eval(fs, fs[k].body, Entered(fs[k], vals, st), fuel - 1);
        if r.OutOfFuel? then r else Walk(Left(r.st), r.st.rv)
  }

  /** The state after a called function has been left. */
  function Left(st: State): State {
    st.(ret := false, scopes := if st.scopes == [] then [] else st.scopes[..|st.scopes| - 1])
  }

  // ---- structured semantics ----

  /** The variables of one call; `used` of the places for variables are taken. */
  datatype Env = Env(vars: map<string, int>, used: nat)

  datatype World = World(out: seq<Event>, keys: seq<int>)

  /** How an expression or a statement ends. A call of a function that does not return a value explicitly has no
      value. */
  datatype Ending = Value(v: int) | NoValue | Normal | Broken | Continued | Returned(v: int) | ReturnedNothing

  /** `Stuck`: a missing value is used. */
  datatype Meaning = Done(e: Ending, env: Env, w: World) | Failed | Stuck | Endless

  datatype Meanings = DoneAll(vals: seq<int>, env: Env, w: World) | NotAll(m: Meaning)

  /** The meaning as an operand: it has to have a value. */
  function Operand(m: Meaning): Meaning {
    if m.Done? && !m.e.Value? then Stuck else m
  }

  function Assigned(op: AssignOp, n: string, v: int, env: Env, w: World): (m: Meaning)
    ensures m.Failed? || (m.Done? && m.e.Value?)
  {
    if n !in env.vars then Failed
    else
      var x := AssignValue(op, env.vars[n], v);
      Done(Value(x), env.(vars := env.vars[n := x]), w)
  }

  function Declared(n: string, v: int, env: Env, w: World): (m: Meaning)
    ensures m.Failed? || m.Done?
    ensures m.Done? ==> m.e.Normal?
  {
    if n in env.vars then Done(Normal, env.(vars := env.vars[n := v]), w)
    else if env.used >= 32 then Failed
    else Done(Normal, Env(env.vars[n := v], env.used + 1), w)
  }

  function Frame(params: seq<string>, vals: seq<int>, vars: map<string, int>): map<string, int> {
    if params == [] || vals == [] then vars else Frame(params[1..], vals[1..], vars[params[0] := vals[0]])
  }

  function Min(a: nat, b: nat): nat { if a <= b then a else b }

  /** `depth` calls are in progress. */
  function Sem(fs: seq<Func>, t: Tree, env: Env, w: World, depth: nat, fuel: nat): Meaning
    decreases fuel, t, 2
  {
    match t
    case Num(v) => Done(Value(v), env, w)
    case Str(off) => Done(Value(off), env, w)
    case Var(n) => if n in env.vars then Done(Value(env.vars[n]), env, w) else Failed
    case Assign(op, n, rhs) =>
      var r := Operand(Sem(fs, rhs, env, w, depth, fuel));
      if !r.Done? then r else Assigned(op, n, r.e.v, r.env, r.w)
    case Decl(n, i) =>
      if i.None? then Declared(n, 0, env, w)
      else
        var r := Operand(Sem(fs, i.t, env, w, depth, fuel));
        if !r.Done? then r else Declared(n, r.e.v, r.env, r.w)
    case Bin(op, l, r) =>
      var a := Operand(Sem(fs, l, env, w, depth, fuel));
      if !a.Done? then a
      else if op == And && a.e.v == 0 then Done(Value(0), a.env, a.w)
      else if op == Or && a.e.v != 0 then Done(Value(1), a.env, a.w)
      else
        var b := Operand(Sem(fs, r, a.env, a.w, depth, fuel));
        if !b.Done? then b else Done(Value(BinValue(op, a.e.v, b.e.v)), b.env, b.w)
    case Un(op, e) =>
      var a := Operand(Sem(fs, e, env, w, depth, fuel));
      if !a.Done? then a else Done(Value(UnValue(op, a.e.v)), a.env, a.w)
    case Call(n, args) =>
      if n == "puts" then
        if args.Nil? || !args.head.Str? then Failed else Done(Value(0), env, w.(out := w.out + [Line(args.head.off)]))
      else
        var a := SemArgs(fs, args, env, w, 8, depth, fuel);
        if a.NotAll? then a.m else SemCall(fs, t, a.vals, a.env, a.w, depth, fuel)
    case If(c, y, n) =>
      var a := Operand(Sem(fs, c, env, w, depth, fuel));
      if !a.Done? then a
      else if a.e.v != 0 then Sem(fs, y, a.env, a.w, depth, fuel)
      else if n.Some? then Sem(fs, n.t, a.env, a.w, depth, fuel)
      else Done(Normal, a.env, a.w)
    case While(_, _) => SemWhile(fs, t, env, w, depth, fuel)
    case For(i, _, _, _) =>
      if i.None? then SemFor(fs, t, env, w, depth, fuel)
      else
        var a := Sem(fs, i.t, env, w, depth, fuel);
        if !a.Done? then a else SemFor(fs, t, a.env, a.w, depth, fuel)
    case Return(o) =>
      if o.None? then Done(ReturnedNothing, env, w)
      else
        var a := Operand(Sem(fs, o.t, env, w, depth, fuel));
        if !a.Done? then a else Done(Returned(a.e.v), a.env, a.w)
    case Break => Done(Broken, env, w)
    case Cont => Done(Continued, env, w)
    case Block(ss) => SemBlock(fs, ss, env, w, depth, fuel)
    case ExprStmt(e) =>
      var a := Sem(fs, e, env, w, depth, fuel);
      if !a.Done? then a else Done(Normal, a.env, a.w)
  }

  function SemArgs(fs: seq<Func>, args: Trees, env: Env, w: World, room: nat, depth: nat, fuel: nat): Meanings
    decreases fuel, args, 3
  {
    if args.Nil? || room == 0 then DoneAll([], env, w)
    else
      var a := Operand(Sem(fs, args.head, env, w, depth, fuel));
      if !a.Done? then NotAll(a)
      else
        var rest := SemArgs(fs, args.tail, a.env, a.w, room - 1, depth, fuel);
        if rest.NotAll? then rest else DoneAll([a.e.v] + rest.vals, rest.env, rest.w)
  }

  /** Statements in order, up to the first that does not end normally. */
  function SemBlock(fs: seq<Func>, ss: Trees, env: Env, w: World, depth: nat, fuel: nat): Meaning
    decreases fuel, ss, 3
  {
    if ss.Nil? then Done(Normal, env, w)
    else
      var a := Sem(fs, ss.head, env, w, depth, fuel);
      if a.Done? && a.e.Normal? then SemBlock(fs, ss.tail, a.env, a.w, depth, fuel) else a
  }

  function SemWhile(fs: seq<Func>, t: Tree, env: Env, w: World, depth: nat, fuel: nat): Meaning
    requires t.While?
    decreases fuel, t, 0
  {
    if fuel == 0 then Endless
    else
      var a := Operand(Sem(fs, t.cond, env, w, depth, fuel - 1));
      if !a.Done? then a
      else if a.e.v == 0 then Done(Normal, a.env, a.w)
      else
        var b := Sem(fs, t.body, a.env, a.w, depth, fuel - 1);
        if !b.Done? || b.e.Returned? || b.e.ReturnedNothing? then b
        else if b.e.Broken? then Done(Normal, b.env, b.w)
        else SemWhile(fs, t, b.env, b.w, depth, fuel - 1)
  }

  function SemFor(fs: seq<Func>, t: Tree, env: Env, w: World, depth: nat, fuel: nat): Meaning
    requires t.For?
    decreases fuel, t, 0
  {
    if fuel == 0 then Endless
    else
      var a := if t.test.None? then Done(Value(1), env, w) else Operand(Sem(fs, t.test.t, env, w, depth, fuel - 1));
      if !a.Done? then a
      else if a.e.v == 0 then Done(Normal, a.env, a.w)
      else
        var b := Sem(fs, t.body, a.env, a.w, depth, fuel - 1);
        if !b.Done? || b.e.Returned? || b.e.ReturnedNothing? then b
        else if b.e.Broken? then Done(Normal, b.env, b.w)
        else
          var c := if t.post.None? then Done(Normal, b.env, b.w) else Sem(fs, t.post.t, b.env, b.w, depth, fuel - 1);
          if !c.Done? then c else SemFor(fs, t, c.env, c.w, depth, fuel - 1)
  }

  function SemNative(n: string, vals: seq<int>, env: Env, w: World): (m: Meaning)
    requires IsNative(n)
    ensures m.Done? ==> m.e.Value?
  {
    if n == "getchar" then
      if w.keys == [] then Endless else Done(Value(w.keys[0]), env, w.(keys := w.keys[1..]))
    else if vals == [] then Done(Value(0), env, w)
    else Done(Value(0), env, w.(out := w.out + [if n == "print" then Printed(vals[0]) else Char(vals[0])]))
  }

  /** The callee has variables of its own; those of the caller are as before. */
  function SemCall(fs: seq<Func>, t: Tree, vals: seq<int>, env: Env, w: World, depth: nat, fuel: nat): (m: Meaning)
    requires t.Call?
    ensures m.Done? ==> m.e.Value? || m.e.NoValue?
    decreases fuel, t, 0
  {
    if IsNative(t.name) then SemNative(t.name, vals, env, w)
    else
      var k := FindFunc(fs, t.name, 0);
      if k < 0 || depth >= 8 then Failed
      else if fuel == 0 then Endless
      else
        var ps := fs[k].params;
        var r := Sem(fs, fs[k].body, Env(Frame(ps, vals, map[]), Min(|ps|, |vals|)), w, depth + 1, fuel - 1);
        if !r.Done? then r
        else Done(if r.e.Returned? then Value(r.e.v) else NoValue, env, r.w)
  }
}
