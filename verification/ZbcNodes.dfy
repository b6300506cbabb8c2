/** The node table: how a syntax tree lies in it, and why such a table is a forest. */
module ZbcNodes {
  import opened ZbcSyntax

  const MAX_NODES := 512

  datatype NodeKind = NNum | NVar | NStr | NAssign | NBin | NUn | NCall | NIf | NWhile | NFor | NBlock | NReturn
    | NBreak | NCont | NExprStmt

  /** One row; -1 stands for no child and for the end of a statement or argument list. */
  datatype Node = Node(kind: NodeKind, op: Token, ival: int, strOff: int, name: string,
                       c0: int, c1: int, c2: int, c3: int, next: int)

  function Blank(k: NodeKind): Node { Node(k, Eof, 0, 0, "", -1, -1, -1, -1, -1) }

  function Size(t: Tree): (n: nat)
    ensures n > 0
  {
    match t
    case Num(_) => 1
    case Str(_) => 1
    case Var(_) => 1
    case Assign(_, _, rhs) => 2 + Size(rhs)
    case Bin(_, l, r) => Size(l) + Size(r) + 1
    case Un(_, e) => 1 + Size(e)
    case Call(_, args) => 1 + ListSize(args)
    case Decl(_, i) => if i.None? then 3 else OptSize(i) + 2
    case If(c, y, n) => Size(c) + Size(y) + OptSize(n) + 1
    case While(c, b) => Size(c) + Size(b) + 1
    case For(i, c, p, b) => OptSize(i) + OptSize(c) + OptSize(p) + Size(b) + 1
    case Return(v) => 1 + OptSize(v)
    case Break => 1
    case Cont => 1
    case Block(ss) => 1 + ListSize(ss)
    case ExprStmt(e) => Size(e) + 1
  }

  function ListSize(ts: Trees): nat { if ts.Nil? then 0 else Size(ts.head) + ListSize(ts.tail) }
  function OptSize(o: Opt): nat { if o.None? then 0 else Size(o.t) }

  /** Row of the root of a tree whose rows start at `lo`: operators follow their operands, lists follow their owner. */
  function Root(t: Tree, lo: nat): (i: nat)
    ensures lo <= i < lo + Size(t)
  {
    match t
    case Assign(_, _, rhs) => lo + 1 + Size(rhs)
    case Bin(_, l, r) => lo + Size(l) + Size(r)
    case Decl(_, i) => lo + OptSize(i)
    case If(c, y, n) => lo + Size(c) + Size(y) + OptSize(n)
    case While(c, b) => lo + Size(c) + Size(b)
    case For(i, c, p, b) => lo + OptSize(i) + OptSize(c) + OptSize(p) + Size(b)
    case ExprStmt(e) => lo + Size(e)
    case _ => lo
  }

  function OptRoot(o: Opt, lo: nat): (i: int)
    ensures i < lo + OptSize(o) && (o.None? <==> i == -1) && (o.Some? ==> i >= lo)
  {
    if o.None? then -1 else Root(o.t, lo)
  }

  function FirstRoot(ts: Trees, lo: nat): (i: int)
    ensures i < lo + ListSize(ts) && (ts.Nil? <==> i == -1) && (ts.Cons? ==> i >= lo)
  {
    if ts.Nil? then -1 else Root(ts.head, lo)
  }

  function Length(ts: Trees): nat { if ts.Nil? then 0 else 1 + Length(ts.tail) }

  function OpToken(u: UnOp): Token { if u.Neg? then TOp(Minus) else TNot }

  /** A declaration is an assignment to a marked variable, of zero when nothing else is given. */
  function DeclRows(n: string, i: Opt, lo: nat, next: int): (ns: seq<Node>)
    ensures |ns| == if i.None? then 3 else 2
  {
    var m := lo + OptSize(i);
    [Blank(NAssign).(op := TAssign(Set), c0 := m + 1, c1 := if i.None? then m + 2 else OptRoot(i, lo), next := next),
     Blank(NVar).(name := n, ival := 1)]
    + (if i.None? then [Blank(NNum)] else [])
  }

  function IfRow(c: Tree, y: Tree, n: Opt, lo: nat, next: int): Node {
    Blank(NIf).(c0 := Root(c, lo), c1 := Root(y, lo + Size(c)), c2 := OptRoot(n, lo + Size(c) + Size(y)), next := next)
  }

  function ForRow(i: Opt, c: Opt, p: Opt, b: Tree, lo: nat, next: int): Node {
    var x, y, z := lo + OptSize(i), lo + OptSize(i) + OptSize(c), lo + OptSize(i) + OptSize(c) + OptSize(p);
    Blank(NFor).(c0 := OptRoot(i, lo), c1 := OptRoot(c, x), c2 := OptRoot(p, y), c3 := Root(b, z), next := next)
  }

  /** The rows of a tree, starting at row `lo`; the root is linked to row `next`. */
  function Layout(t: Tree, lo: nat, next: int): (ns: seq<Node>)
    ensures |ns| == Size(t)
    decreases t, 2
  {
    if IsStmt(t) then StmtRows(t, lo, next) else ExprRows(t, lo, next)
  }

  predicate IsStmt(t: Tree) {
    t.Decl? || t.If? || t.While? || t.For? || t.Return? || t.Break? || t.Cont? || t.Block? || t.ExprStmt?
  }

  lemma StmtLayout(t: Tree, lo: nat, next: int)
    requires IsStmt(t)
    ensures Layout(t, lo, next) == StmtRows(t, lo, next)
  {
    hide StmtRows, ExprRows, Size;
  }

  function ExprRows(t: Tree, lo: nat, next: int): (ns: seq<Node>)
    requires !IsStmt(t)
    ensures |ns| == Size(t)
    decreases t, 1
  {
    match t
    case Num(v) => [Blank(NNum).(ival := v, next := next)]
    case Str(off) => [Blank(NStr).(strOff := off, next := next)]
    case Var(n) => [Blank(NVar).(name := n, next := next)]
    case Assign(op, n, rhs) =>
      [Blank(NVar).(name := n)] + Layout(rhs, lo + 1, -1)
      + [Blank(NAssign).(op := TAssign(op), c0 := lo, c1 := Root(rhs, lo + 1), next := next)]
    case Bin(op, l, r) =>
      Layout(l, lo, -1) + Layout(r, lo + Size(l), -1)
      + [Blank(NBin).(op := TOp(op), c0 := Root(l, lo), c1 := Root(r, lo + Size(l)), next := next)]
    case Un(op, e) => [Blank(NUn).(op := OpToken(op), c0 := Root(e, lo + 1), next := next)] + Layout(e, lo + 1, -1)
    case Call(n, args) =>
      [Blank(NCall).(name := n, ival := Length(args), c0 := FirstRoot(args, lo + 1), next := next)] + ListLayout(args,
          lo + 1)
  }

  function StmtRows(t: Tree, lo: nat, next: int): (ns: seq<Node>)
    requires IsStmt(t)
    ensures |ns| == Size(t)
    decreases t, 1
  {
    hide Root, OptRoot, FirstRoot, OptLayout, ListLayout, Layout;
    match t
    case Decl(n, i) => OptLayout(i, lo) + DeclRows(n, i, lo, next)
    case If(c, y, n) =>
      IfParts(c, y, n, lo) + [IfRow(c, y, n, lo, next)]
    case While(c, b) =>
      Layout(c, lo, -1) + Layout(b, lo + Size(c), -1)
      + [Blank(NWhile).(c0 := Root(c, lo), c1 := Root(b, lo + Size(c)), next := next)]
    case For(i, c, p, b) =>
      ForParts(i, c, p, b, lo) + [ForRow(i, c, p, b, lo, next)]
    case Return(v) => [Blank(NReturn).(c0 := OptRoot(v, lo + 1), next := next)] + OptLayout(v, lo + 1)
    case Break => [Blank(NBreak).(next := next)]
    case Cont => [Blank(NCont).(next := next)]
    case Block(ss) => [Blank(NBlock).(c0 := FirstRoot(ss, lo + 1), next := next)] + ListLayout(ss, lo + 1)
    case ExprStmt(e) => Layout(e, lo, -1) + [Blank(NExprStmt).(c0 := Root(e, lo), next := next)]
  }

  function IfParts(c: Tree, y: Tree, n: Opt, lo: nat): (ns: seq<Node>)
    ensures |ns| == Size(c) + Size(y) + OptSize(n)
    decreases If(c, y, n), 0
  {
    Layout(c, lo, -1) + Layout(y, lo + Size(c), -1) + OptLayout(n, lo + Size(c) + Size(y))
  }

  function ForParts(i: Opt, c: Opt, p: Opt, b: Tree, lo: nat): (ns: seq<Node>)
    ensures |ns| == OptSize(i) + OptSize(c) + OptSize(p) + Size(b)
    decreases For(i, c, p, b), 0
  {
    OptLayout(i, lo) + OptLayout(c, lo + OptSize(i)) + OptLayout(p, lo + OptSize(i) + OptSize(c))
    + Layout(b, lo + OptSize(i) + OptSize(c) + OptSize(p), -1)
  }

  /** A list: each root is linked to the root behind it. */
  function ListLayout(ts: Trees, lo: nat): (ns: seq<Node>)
    ensures |ns| == ListSize(ts)
  {
    if ts.Nil? then [] else
      Layout(ts.head, lo, FirstRoot(ts.tail, lo + Size(ts.head))) + ListLayout(ts.tail, lo + Size(ts.head))
  }

  function OptLayout(o: Opt, lo: nat): (ns: seq<Node>)
    ensures |ns| == OptSize(o)
  {
    if o.None? then [] else Layout(o.t, lo, -1)
  }

  /** Linking a root to its successor afterwards is laying it out with that link. */
  lemma Relink(t: Tree, lo: nat, next: int)
    ensures var ns := Layout(t, lo, -1);
            var k := Root(t, lo) - lo;
            Layout(t, lo, next) == ns[k := ns[k].(next := next)]
  {
    if IsStmt(t) { RelinkStmt(t, lo, next); } else { RelinkExpr(t, lo, next); }
  }

  lemma RelinkExpr(t: Tree, lo: nat, next: int)
    requires !IsStmt(t)
    ensures var ns := ExprRows(t, lo, -1);
            var k := Root(t, lo) - lo;
            ExprRows(t, lo, next) == ns[k := ns[k].(next := next)]
  {
    hide Size, Layout, ListLayout;
    var ns, ms, k := ExprRows(t, lo, -1), ExprRows(t, lo, next), Root(t, lo) - lo;
    assert ms[k] == ns[k].(next := next);
    assert forall i | 0 <= i < |ns| && i != k :: ms[i] == ns[i];
  }

  lemma RelinkLast(a: seq<Node>, n: Node, next: int)
    ensures var ns := a + [n]; a + [n.(next := next)] == ns[|a| := ns[|a|].(next := next)]
  {
  }

  lemma RelinkFirst(n: Node, a: seq<Node>, next: int)
    ensures var ns := [n] + a; [n.(next := next)] + a == ns[0 := ns[0].(next := next)]
  {
  }

  lemma RelinkDecl(n: string, i: Opt, lo: nat, next: int)
    ensures var ns, k := OptLayout(i, lo) + DeclRows(n, i, lo, -1), OptSize(i);
            OptLayout(i, lo) + DeclRows(n, i, lo, next) == ns[k := ns[k].(next := next)]
  {
    hide OptLayout, OptSize, OptRoot;
    var rows := DeclRows(n, i, lo, -1);
    assert DeclRows(n, i, lo, next) == rows[0 := rows[0].(next := next)];
  }

  lemma RelinkFor(i: Opt, c: Opt, p: Opt, b: Tree, lo: nat, next: int)
    ensures var t := For(i, c, p, b);
            var ns := StmtRows(t, lo, -1);
            var k := Root(t, lo) - lo;
            StmtRows(t, lo, next) == ns[k := ns[k].(next := next)]
  {
    hide Size, Layout, OptLayout, OptSize, OptRoot, ForParts;
    RelinkLast(ForParts(i, c, p, b, lo), ForRow(i, c, p, b, lo, -1), next);
  }

  lemma RelinkStmt(t: Tree, lo: nat, next: int)
    requires IsStmt(t)
    ensures var ns := StmtRows(t, lo, -1);
            var k := Root(t, lo) - lo;
            StmtRows(t, lo, next) == ns[k := ns[k].(next := next)]
  {
    hide Size, Layout, ListLayout, OptLayout, OptSize, ListSize, OptRoot, FirstRoot, IfParts, ForParts, DeclRows;
    match t
    case Decl(n, i) =>
      RelinkDecl(n, i, lo, next);
    case If(c, y, n) =>
      RelinkLast(IfParts(c, y, n, lo), IfRow(c, y, n, lo, -1), next);
    case While(c, b) =>
      RelinkLast(Layout(c, lo, -1) + Layout(b, lo + Size(c), -1),
                 Blank(NWhile).(c0 := Root(c, lo), c1 := Root(b, lo + Size(c))), next);
    case For(i, c, p, b) =>
      RelinkFor(i, c, p, b, lo, next);
    case Return(v) => RelinkFirst(Blank(NReturn).(c0 := OptRoot(v, lo + 1)), OptLayout(v, lo + 1), next);
    case Break =>
    case Cont =>
    case Block(ss) => RelinkFirst(Blank(NBlock).(c0 := FirstRoot(ss, lo + 1)), ListLayout(ss, lo + 1), next);
    case ExprStmt(e) => RelinkLast(Layout(e, lo, -1), Blank(NExprStmt).(c0 := Root(e, lo)), next);
  }

  function LastRoot(ts: Trees, lo: nat): (i: int)
    ensures i < lo + ListSize(ts) && (ts.Nil? <==> i == -1) && (ts.Cons? ==> i >= lo)
  {
    if ts.Nil? then -1 else if ts.tail.Nil? then Root(ts.head, lo) else LastRoot(ts.tail, lo + Size(ts.head))
  }

  /** The rows of a list with its last root linked to row `i`. */
  function Linked(ts: Trees, lo: nat, i: int): seq<Node> {
    var ns, k := ListLayout(ts, lo), LastRoot(ts, lo) - lo;
    if ts.Nil? then ns else ns[k := ns[k].(next := i)]
  }

  lemma LinkedNil(lo: nat, i: int)
    ensures Linked(Nil, lo, i) == []
  {
  }

  lemma SetBehind(a: seq<Node>, b: seq<Node>, k: nat, n: Node)
    requires k < |b|
    ensures (a + b)[|a| + k] == b[k] && (a + b)[|a| + k := n] == a + b[k := n]
  {
  }

  lemma LinkedCons(h: Tree, tail: Trees, lo: nat, i: int)
    ensures Linked(Cons(h, tail), lo, i)
         == Layout(h, lo, if tail.Nil? then i else FirstRoot(tail, lo + Size(h))) + Linked(tail, lo + Size(h), i)
  {
    hide Layout, Size, Root;
    var rows, rest, last := Layout(h, lo, FirstRoot(tail, lo + Size(h))), ListLayout(tail, lo + Size(h)),
        LastRoot(tail, lo + Size(h));
    if tail.Nil? {
      Relink(h, lo, i);
      assert Layout(h, lo, -1) + [] == Layout(h, lo, -1);
    } else {
      SetBehind(rows, rest, last - lo - Size(h), rest[last - lo - Size(h)].(next := i));
    }
  }

  /** A tree more at the end of a list: its rows behind those of the list, the root before linked to its root. */
  lemma {:induction false} ListSnoc(ts: Trees, t: Tree, lo: nat)
    ensures ListSize(Snoc(ts, t)) == ListSize(ts) + Size(t) && Length(Snoc(ts, t)) == Length(ts) + 1
    ensures FirstRoot(Snoc(ts, t), lo) == if ts.Nil? then Root(t, lo) else FirstRoot(ts, lo)
    ensures LastRoot(Snoc(ts, t), lo) == Root(t, lo + ListSize(ts))
    ensures ListLayout(Snoc(ts, t), lo) == Linked(ts, lo, Root(t, lo + ListSize(ts))) + Layout(t, lo + ListSize(ts), -1)
  {
    hide Layout, Size, Root;
    hide Linked;
    if ts.Cons? {
      ListSnoc(ts.tail, t, lo + Size(ts.head));
      LinkedCons(ts.head, ts.tail, lo, Root(t, lo + ListSize(ts)));
    } else {
      LinkedNil(lo, Root(t, lo));
    }
  }

  lemma {:induction false} ConcatSize(a: Trees, b: Trees)
    ensures ListSize(Concat(a, b)) == ListSize(a) + ListSize(b)
  {
    if a.Cons? { ConcatSize(a.tail, b); }
  }
}
