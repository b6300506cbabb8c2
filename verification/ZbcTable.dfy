/** Reading a tree back from the node table: its root row, and where its parts lie. */
module ZbcTable {
  import opened ZbcSyntax
  import opened ZbcGrammar
  import opened ZbcNodes
  import opened ZbcParseSteps
  import opened ZbcStmtSteps

  /** Tree `t` lies in the table from row `lo` on, its root linked to row `next`. */
  ghost predicate Laid(ns: seq<Node>, t: Tree, lo: nat, next: int) {
    lo + Size(t) <= |ns| && ns[lo..lo + Size(t)] == Layout(t, lo, next)
  }

  ghost predicate ListLaid(ns: seq<Node>, ts: Trees, lo: nat) {
    lo + ListSize(ts) <= |ns| && ns[lo..lo + ListSize(ts)] == ListLayout(ts, lo)
  }

  ghost predicate OptLaid(ns: seq<Node>, o: Opt, lo: nat) {
    o.Some? ==> Laid(ns, o.t, lo, -1)
  }

  lemma Slices(ns: seq<Node>, lo: nat, a: seq<Node>, b: seq<Node>)
    requires lo + |a| + |b| <= |ns| && ns[lo..lo + |a| + |b|] == a + b
    ensures ns[lo..lo + |a|] == a && ns[lo + |a|..lo + |a| + |b|] == b
  {
    var all := ns[lo..lo + |a| + |b|];
    assert ns[lo..lo + |a|] == all[..|a|];
    assert ns[lo + |a|..lo + |a| + |b|] == all[|a|..];
  }

  lemma RowAt(ns: seq<Node>, lo: nat, n: Node)
    requires lo < |ns| && ns[lo..lo + 1] == [n]
    ensures ns[lo] == n
  {
    assert ns[lo..lo + 1][0] == n;
  }

  /** Up to four stretches and a row behind them. */
  lemma Stretches(ns: seq<Node>, lo: nat, a: seq<Node>, b: seq<Node>, c: seq<Node>, d: seq<Node>, e: Node)
    requires lo + |a| + |b| + |c| + |d| < |ns| && ns[lo..lo + |a| + |b| + |c| + |d| + 1] == a + b + c + d + [e]
    ensures ns[lo..lo + |a|] == a && ns[lo + |a|..lo + |a| + |b|] == b && ns[lo + |a| + |b|..lo + |a| + |b| + |c|] == c
    ensures ns[lo + |a| + |b| + |c|..lo + |a| + |b| + |c| + |d|] == d && ns[lo + |a| + |b| + |c| + |d|] == e
  {
    Slices(ns, lo, a + b + c + d, [e]);
    Slices(ns, lo, a + b + c, d);
    Slices(ns, lo, a + b, c);
    Slices(ns, lo, a, b);
    RowAt(ns, lo + |a| + |b| + |c| + |d|, e);
  }

  /** The root row of a leaf or a jump. */
  lemma LaidLeaf(ns: seq<Node>, t: Tree, lo: nat, next: int)
    requires Laid(ns, t, lo, next) && (t.Num? || t.Str? || t.Var? || t.Break? || t.Cont?)
    ensures Root(t, lo) == lo < |ns| && ns[lo] == match t
              case Num(v) => Blank(NNum).(ival := v, next := next)
              case Str(off) => Blank(NStr).(strOff := off, next := next)
              case Var(n) => Blank(NVar).(name := n, next := next)
              case Break => Blank(NBreak).(next := next)
              case _ => Blank(NCont).(next := next)
  {
    var n := match t
      case Num(v) => Blank(NNum).(ival := v, next := next)
      case Str(off) => Blank(NStr).(strOff := off, next := next)
      case Var(n) => Blank(NVar).(name := n, next := next)
      case Break => Blank(NBreak).(next := next)
      case _ => Blank(NCont).(next := next);
    assert Layout(t, lo, next) == [n];
    RowAt(ns, lo, n);
  }

  lemma LaidAssign(ns: seq<Node>, t: Tree, lo: nat, next: int)
    requires Laid(ns, t, lo, next) && t.Assign?
    ensures var at := Root(t, lo);
      && Laid(ns, t.rhs, lo + 1, -1) && at < |ns| && lo < |ns|
      && ns[at] == Blank(NAssign).(op := TAssign(t.aop), c0 := lo, c1 := Root(t.rhs, lo + 1), next := next)
      && ns[lo] == Blank(NVar).(name := t.name)
  {
    hide Layout, Size, Root;
    var a, b := [Blank(NVar).(name := t.name)], Layout(t.rhs, lo + 1, -1);
    var c := Blank(NAssign).(op := TAssign(t.aop), c0 := lo, c1 := Root(t.rhs, lo + 1), next := next);
    AssignRows(t.aop, t.name, t.rhs, lo, next);
    Slices(ns, lo, a + b, [c]);
    Slices(ns, lo, a, b);
    RowAt(ns, lo, a[0]);
    RowAt(ns, lo + |a| + |b|, c);
  }

  lemma LaidDecl(ns: seq<Node>, t: Tree, lo: nat, next: int)
    requires Laid(ns, t, lo, next) && t.Decl?
    ensures var m := Root(t, lo);
      && m + 1 < |ns|
      && ns[m + 1] == Blank(NVar).(name := t.name, ival := 1)
      && ns[m] == Blank(NAssign).(op := TAssign(Set), c0 := m + 1, c1 := if t.init.None? then m + 2
          else Root(t.init.t, lo), next := next)
      && (if t.init.None? then Laid(ns, Num(0), m + 2, -1) else Laid(ns, t.init.t, lo, -1))
  {
    hide Layout, Size, Root, OptLayout, OptSize;
    DeclLayout(t.name, t.init, lo, next);
    var a, b := OptLayout(t.init, lo), DeclRows(t.name, t.init, lo, next);
    Slices(ns, lo, a, b);
    OptFromRows(ns, t.init, lo);
    var m := Root(t, lo);
    RowsOf(ns, m, b);
    assert ns[m + 0] == b[0] && ns[m + 1] == b[1];
    if t.init.None? {
      assert ns[m + 2] == b[2];
      ZeroLaid(ns, m + 2);
    }
  }

  lemma RowsOf(ns: seq<Node>, lo: nat, b: seq<Node>)
    requires lo + |b| <= |ns| && ns[lo..lo + |b|] == b
    ensures forall k | 0 <= k < |b| :: ns[lo + k] == b[k]
  {
    forall k | 0 <= k < |b|
      ensures ns[lo + k] == b[k]
    {
      assert ns[lo..lo + |b|][k] == ns[lo + k];
    }
  }

  lemma ZeroLaid(ns: seq<Node>, lo: nat)
    requires lo < |ns| && ns[lo] == Blank(NNum)
    ensures Laid(ns, Num(0), lo, -1)
  {
    assert ns[lo..lo + 1] == [Blank(NNum)];
  }

  lemma LaidBin(ns: seq<Node>, t: Tree, lo: nat, next: int)
    requires Laid(ns, t, lo, next) && t.Bin?
    ensures var at := Root(t, lo);
      && Laid(ns, t.l, lo, -1) && Laid(ns, t.r, lo + Size(t.l), -1) && at < |ns|
      && ns[at] == Blank(NBin).(op := TOp(t.op), c0 := Root(t.l, lo), c1 := Root(t.r, lo + Size(t.l)), next := next)
  {
    hide Layout, Size, Root;
    var a, b := Layout(t.l, lo, -1), Layout(t.r, lo + Size(t.l), -1);
    var c := Blank(NBin).(op := TOp(t.op), c0 := Root(t.l, lo), c1 := Root(t.r, lo + Size(t.l)), next := next);
    BinRows(t.op, t.l, t.r, lo, next);
    Slices(ns, lo, a + b, [c]);
    Slices(ns, lo, a, b);
    RowAt(ns, lo + |a| + |b|, c);
  }

  lemma LaidUn(ns: seq<Node>, t: Tree, lo: nat, next: int)
    requires Laid(ns, t, lo, next) && t.Un?
    ensures Root(t, lo) == lo < |ns| && Laid(ns, t.e, lo + 1, -1)
    ensures ns[lo] == Blank(NUn).(op := OpToken(t.uop), c0 := Root(t.e, lo + 1), next := next)
  {
    hide Layout, Size, Root;
    UnRows(t.uop, t.e, lo, next);
    var a := Blank(NUn).(op := OpToken(t.uop), c0 := Root(t.e, lo + 1), next := next);
    Slices(ns, lo, [a], Layout(t.e, lo + 1, -1));
    RowAt(ns, lo, a);
  }

  lemma LaidCall(ns: seq<Node>, t: Tree, lo: nat, next: int)
    requires Laid(ns, t, lo, next) && t.Call?
    ensures Root(t, lo) == lo < |ns| && ListLaid(ns, t.args, lo + 1)
    ensures ns[lo] == Blank(NCall).(name := t.name, ival := Length(t.args), c0 := FirstRoot(t.args, lo + 1),
        next := next)
  {
    hide Layout, ListLayout, Size, ListSize, Root, FirstRoot;
    CallRows(t.name, t.args, lo, next);
    CallSize(t.name, t.args);
    var a := Blank(NCall).(name := t.name, ival := Length(t.args), c0 := FirstRoot(t.args, lo + 1), next := next);
    Slices(ns, lo, [a], ListLayout(t.args, lo + 1));
    RowAt(ns, lo, a);
  }

  lemma LaidBlock(ns: seq<Node>, t: Tree, lo: nat, next: int)
    requires Laid(ns, t, lo, next) && t.Block?
    ensures Root(t, lo) == lo < |ns| && ListLaid(ns, t.body_, lo + 1)
    ensures ns[lo] == Blank(NBlock).(c0 := FirstRoot(t.body_, lo + 1), next := next)
  {
    hide Layout, ListLayout, Size, ListSize, Root, FirstRoot;
    BlockRows(t.body_, lo, next);
    var a := Blank(NBlock).(c0 := FirstRoot(t.body_, lo + 1), next := next);
    Slices(ns, lo, [a], ListLayout(t.body_, lo + 1));
    RowAt(ns, lo, a);
  }

  lemma LaidReturn(ns: seq<Node>, t: Tree, lo: nat, next: int)
    requires Laid(ns, t, lo, next) && t.Return?
    ensures Root(t, lo) == lo < |ns| && OptLaid(ns, t.value, lo + 1)
    ensures ns[lo] == Blank(NReturn).(c0 := OptRoot(t.value, lo + 1), next := next)
  {
    hide Layout, OptLayout, Size, OptSize, Root, OptRoot, OptLaid;
    ReturnRows(t.value, lo, next);
    var a := Blank(NReturn).(c0 := OptRoot(t.value, lo + 1), next := next);
    Slices(ns, lo, [a], OptLayout(t.value, lo + 1));
    RowAt(ns, lo, a);
    OptFromRows(ns, t.value, lo + 1);
  }

  lemma LaidExprStmt(ns: seq<Node>, t: Tree, lo: nat, next: int)
    requires Laid(ns, t, lo, next) && t.ExprStmt?
    ensures Laid(ns, t.e, lo, -1) && Root(t, lo) < |ns|
    ensures ns[Root(t, lo)] == Blank(NExprStmt).(c0 := Root(t.e, lo), next := next)
  {
    hide Layout, Size, Root;
    var a, b := Layout(t.e, lo, -1), Blank(NExprStmt).(c0 := Root(t.e, lo), next := next);
    ExprStmtRows(t.e, lo, next);
    Slices(ns, lo, a, [b]);
    RowAt(ns, lo + |a|, b);
  }

  lemma LaidIf(ns: seq<Node>, t: Tree, lo: nat, next: int)
    requires Laid(ns, t, lo, next) && t.If?
    ensures var at, m := Root(t, lo), lo + Size(t.cond);
      && Laid(ns, t.cond, lo, -1) && Laid(ns, t.yes, m, -1) && OptLaid(ns, t.no, m + Size(t.yes)) && at < |ns|
      && ns[at] == IfRow(t.cond, t.yes, t.no, lo, next)
  {
    hide Layout, OptLayout, Size, OptSize, IfRow, OptLaid;
    var m := lo + Size(t.cond);
    IfRows(t.cond, t.yes, t.no, lo, next);
    IfSize(t.cond, t.yes, t.no);
    var a, b, c := Layout(t.cond, lo, -1), Layout(t.yes, m, -1), OptLayout(t.no, m + Size(t.yes));
    assert a + b + c + [] == a + b + c;
    Stretches(ns, lo, a, b, c, [], IfRow(t.cond, t.yes, t.no, lo, next));
    OptFromRows(ns, t.no, m + Size(t.yes));
  }

  lemma LaidWhile(ns: seq<Node>, t: Tree, lo: nat, next: int)
    requires Laid(ns, t, lo, next) && t.While?
    ensures var at, m := Root(t, lo), lo + Size(t.cond);
      && Laid(ns, t.cond, lo, -1) && Laid(ns, t.body, m, -1) && at < |ns|
      && ns[at] == Blank(NWhile).(c0 := Root(t.cond, lo), c1 := Root(t.body, m), next := next)
  {
    hide Layout, Size, Root;
    var a, b := Layout(t.cond, lo, -1), Layout(t.body, lo + Size(t.cond), -1);
    var c := Blank(NWhile).(c0 := Root(t.cond, lo), c1 := Root(t.body, lo + Size(t.cond)), next := next);
    WhileRows(t.cond, t.body, lo, next);
    Slices(ns, lo, a + b, [c]);
    Slices(ns, lo, a, b);
    RowAt(ns, lo + |a| + |b|, c);
  }

  lemma LaidFor(ns: seq<Node>, t: Tree, lo: nat, next: int)
    requires Laid(ns, t, lo, next) && t.For?
    ensures var at, x := Root(t, lo), lo + OptSize(t.start);
      var y := x + OptSize(t.test);
      var z := y + OptSize(t.post);
      && OptLaid(ns, t.start, lo) && OptLaid(ns, t.test, x) && OptLaid(ns, t.post, y) && Laid(ns, t.body, z, -1)
      && at < |ns|
      && ns[at] == ForRow(t.start, t.test, t.post, t.body, lo, next)
  {
    hide Layout, OptLayout, Size, OptSize, ForRow, OptLaid;
    var x := lo + OptSize(t.start);
    var y := x + OptSize(t.test);
    var z := y + OptSize(t.post);
    ForRows(t.start, t.test, t.post, t.body, lo, next);
    ForSize(t.start, t.test, t.post, t.body);
    Stretches(ns, lo, OptLayout(t.start, lo), OptLayout(t.test, x), OptLayout(t.post, y), Layout(t.body, z, -1),
              ForRow(t.start, t.test, t.post, t.body, lo, next));
    OptFromRows(ns, t.start, lo);
    OptFromRows(ns, t.test, x);
    OptFromRows(ns, t.post, y);
  }

  lemma OptFromRows(ns: seq<Node>, o: Opt, lo: nat)
    requires lo + OptSize(o) <= |ns| && ns[lo..lo + OptSize(o)] == OptLayout(o, lo)
    ensures OptLaid(ns, o, lo)
  {
    hide Layout, Size;
  }

  lemma LaidList(ns: seq<Node>, ts: Trees, lo: nat)
    requires ListLaid(ns, ts, lo) && ts.Cons?
    ensures var m := lo + Size(ts.head);
      && Laid(ns, ts.head, lo, FirstRoot(ts.tail, m)) && ListLaid(ns, ts.tail, m)
  {
    hide Layout, Size;
    Slices(ns, lo, Layout(ts.head, lo, FirstRoot(ts.tail, lo + Size(ts.head))),
        ListLayout(ts.tail, lo + Size(ts.head)));
  }

  /** The link in the root row. */
  lemma LaidNext(ns: seq<Node>, t: Tree, lo: nat, next: int)
    requires Laid(ns, t, lo, next)
    ensures Root(t, lo) < |ns| && ns[Root(t, lo)].next == next
  {
    hide Layout, Size;
    Relink(t, lo, next);
    var k := Root(t, lo) - lo;
    assert ns[lo..lo + Size(t)][k] == ns[Root(t, lo)];
  }

  /** The body of a function in the table of its program. */
  lemma {:induction false} BodyLaid(fs: seq<Func>, k: nat)
    requires k < |fs|
    ensures Laid(ProgramRows(fs), fs[k].body, BodyAt(fs, k), -1)
  {
    hide Layout, Size;
    var m := |fs| - 1;
    var rows, body := ProgramRows(fs[..m]), Layout(fs[m].body, |ProgramRows(fs[..m])|, -1);
    if k == m {
      assert (rows + body)[|rows|..|rows| + |body|] == body;
    } else {
      BodyLaid(fs[..m], k);
      assert fs[..m][..k] == fs[..k];
      var lo := BodyAt(fs, k);
      assert (rows + body)[lo..lo + Size(fs[k].body)] == rows[lo..lo + Size(fs[k].body)];
    }
  }

  function KindOf(t: Tree): NodeKind {
    match t
    case Num(_) => NNum
    case Str(_) => NStr
    case Var(_) => NVar
    case Assign(_, _, _) => NAssign
    case Decl(_, _) => NAssign
    case Bin(_, _, _) => NBin
    case Un(_, _) => NUn
    case Call(_, _) => NCall
    case If(_, _, _) => NIf
    case While(_, _) => NWhile
    case For(_, _, _, _) => NFor
    case Return(_) => NReturn
    case Break => NBreak
    case Cont => NCont
    case Block(_) => NBlock
    case ExprStmt(_) => NExprStmt
  }

  /** The root row tells what kind of tree hangs on it. */
  lemma RootRow(ns: seq<Node>, t: Tree, lo: nat, next: int)
    requires Laid(ns, t, lo, next)
    ensures Root(t, lo) < |ns| && ns[Root(t, lo)].kind == KindOf(t)
  {
    hide Laid;
    match t
    case Assign(_, _, _) => LaidAssign(ns, t, lo, next);
    case Decl(_, _) => LaidDecl(ns, t, lo, next);
    case Bin(_, _, _) => LaidBin(ns, t, lo, next);
    case Un(_, _) => LaidUn(ns, t, lo, next);
    case Call(_, _) => LaidCall(ns, t, lo, next);
    case If(_, _, _) => LaidIf(ns, t, lo, next);
    case While(_, _) => LaidWhile(ns, t, lo, next);
    case For(_, _, _, _) => LaidFor(ns, t, lo, next);
    case Return(_) => LaidReturn(ns, t, lo, next);
    case Block(_) => LaidBlock(ns, t, lo, next);
    case ExprStmt(_) => LaidExprStmt(ns, t, lo, next);
    case _ => LaidLeaf(ns, t, lo, next);
  }
}
