/** Every parsed program lies in the node table as a forest: no row is linked to twice, and links never run in
    circles. */
module ZbcForest {
  import opened ZbcSyntax
  import opened ZbcNodes
  import opened ZbcStmtSteps

  /** A link of the table: the row it comes from and which of its five fields holds it. */
  datatype Link = Link(row: int, field: nat)

  function Field(n: Node, f: nat): int {
    match f
    case 0 => n.c0
    case 1 => n.c1
    case 2 => n.c2
    case 3 => n.c3
    case _ => n.next
  }

  /** The rows `ns` from `lo` on, with one incoming link and one height for each: links stay inside, are the one
      incoming link of their target, and lead downwards. */
  ghost predicate Tidy(ns: seq<Node>, up: seq<Link>, height: seq<nat>, lo: nat) {
    && |up| == |ns| && |height| == |ns|
    && forall k, f: nat | 0 <= k < |ns| && f < 5 && Field(ns[k], f) >= 0 :: Leads(ns, up, height, lo, k, f)
  }

  ghost predicate Leads(ns: seq<Node>, up: seq<Link>, height: seq<nat>, lo: nat, k: nat, f: nat)
    requires k < |ns| && |up| == |ns| && |height| == |ns|
  {
    var j := Field(ns[k], f) - lo;
    0 <= j < |ns| && up[j] == Link(lo + k, f) && height[j] < height[k]
  }

  // ---- what it means for the table ----

  /** No row is the target of two links. */
  ghost predicate OneParent(ns: seq<Node>) {
    forall k, f: nat, m, g: nat | 0 <= k < |ns| && 0 <= m < |ns| && f < 5 && g < 5
      && Field(ns[k], f) == Field(ns[m], g) >= 0 :: k == m && f == g
  }

  /** `path` follows links of the table. */
  ghost predicate IsPath(ns: seq<Node>, path: seq<nat>) {
    && (forall i | 0 <= i < |path| :: path[i] < |ns|)
    && forall i | 0 <= i < |path| - 1 :: exists f: nat :: f < 5 && Field(ns[path[i]], f) == path[i + 1]
  }

  lemma TidyOneParent(ns: seq<Node>, up: seq<Link>, height: seq<nat>)
    requires Tidy(ns, up, height, 0)
    ensures OneParent(ns)
  {
    forall k, f: nat, m, g: nat | 0 <= k < |ns| && 0 <= m < |ns| && f < 5 && g < 5 && Field(ns[k], f) == Field(ns[m],
        g) >= 0
      ensures k == m && f == g
    {
      assert Leads(ns, up, height, 0, k, f) && Leads(ns, up, height, 0, m, g);
    }
  }

  /** Along a path the heights fall, so no row comes twice. */
  lemma {:induction false} PathFalls(ns: seq<Node>, up: seq<Link>, height: seq<nat>, path: seq<nat>, i: nat, j: nat)
    requires Tidy(ns, up, height, 0) && IsPath(ns, path) && i < j < |path|
    ensures height[path[j]] < height[path[i]] && path[i] != path[j]
  {
    var f: nat :| f < 5 && Field(ns[path[j - 1]], f) == path[j];
    assert Leads(ns, up, height, 0, path[j - 1], f);
    if i < j - 1 {
      PathFalls(ns, up, height, path, i, j - 1);
    }
  }

  // ---- building tidy tables ----

  /** A stretch of rows with their incoming links and heights. */
  datatype Part = Part(ns: seq<Node>, up: seq<Link>, height: seq<nat>)

  const NOTHING := Part([], [], [])

  function Join(a: Part, b: Part): Part { Part(a.ns + b.ns, a.up + b.up, a.height + b.height) }
  function Row(n: Node, u: Link, h: nat): Part { Part([n], [u], [h]) }

  /** A tidy stretch from `lo` on, whose root (-1: none, and no rows) expects link `u` and is at most `h` high. */
  ghost predicate Kid(p: Part, lo: nat, root: int, u: Link, h: nat) {
    && Tidy(p.ns, p.up, p.height, lo)
    && (root == -1 ==> p == NOTHING)
    && (root != -1 ==> lo <= root < lo + |p.ns| && p.up[root - lo] == u && p.height[root - lo] <= h)
  }

  lemma TidyJoin(a: Part, b: Part, lo: nat)
    requires Tidy(a.ns, a.up, a.height, lo) && Tidy(b.ns, b.up, b.height, lo + |a.ns|)
    ensures var c := Join(a, b); Tidy(c.ns, c.up, c.height, lo)
  {
    var c := Join(a, b);
    forall k, f: nat | 0 <= k < |c.ns| && f < 5 && Field(c.ns[k], f) >= 0
      ensures Leads(c.ns, c.up, c.height, lo, k, f)
    {
      if k < |a.ns| {
        assert Leads(a.ns, a.up, a.height, lo, k, f);
      } else {
        assert Leads(b.ns, b.up, b.height, lo + |a.ns|, k - |a.ns|, f);
      }
    }
  }

  /** The rows `p` from `lo` on, and a row `n` at `at` beside them, none of whose links is missing there. */
  ghost predicate Announced(p: Part, lo: nat, n: Node, at: int, h: nat) {
    && |p.up| == |p.height| == |p.ns|
    && forall f: nat | f < 5 && Field(n, f) >= 0 ::
         lo <= Field(n, f) < lo + |p.ns| && p.up[Field(n, f) - lo] == Link(at, f) && p.height[Field(n, f) - lo] < h
  }

  lemma TidyLast(p: Part, lo: nat, n: Node, u: Link, h: nat)
    requires Tidy(p.ns, p.up, p.height, lo) && Announced(p, lo, n, lo + |p.ns|, h)
    ensures Kid(Join(p, Row(n, u, h)), lo, lo + |p.ns|, u, h)
  {
    var c := Join(p, Row(n, u, h));
    forall k, f: nat | 0 <= k < |c.ns| && f < 5 && Field(c.ns[k], f) >= 0
      ensures Leads(c.ns, c.up, c.height, lo, k, f)
    {
      assert k < |p.ns| ==> Leads(p.ns, p.up, p.height, lo, k, f);
    }
  }

  lemma TidyFirst(p: Part, lo: nat, n: Node, u: Link, h: nat)
    requires Tidy(p.ns, p.up, p.height, lo + 1) && Announced(p, lo + 1, n, lo, h)
    ensures Kid(Join(Row(n, u, h), p), lo, lo, u, h)
  {
    var c := Join(Row(n, u, h), p);
    forall k, f: nat | 0 <= k < |c.ns| && f < 5 && Field(c.ns[k], f) >= 0
      ensures Leads(c.ns, c.up, c.height, lo, k, f)
    {
      assert k > 0 ==> Leads(p.ns, p.up, p.height, lo + 1, k - 1, f);
    }
  }

  /** A row behind its up to four children. */
  lemma CloseBack(a: Part, b: Part, c: Part, d: Part, lo: nat, n: Node, at: nat, u: Link, h: nat)
    requires at == lo + |a.ns| + |b.ns| + |c.ns| + |d.ns| && n.next == -1
    requires n.c0 >= -1 && n.c1 >= -1 && n.c2 >= -1 && n.c3 >= -1 && h > 0
    requires Kid(a, lo, n.c0, Link(at, 0), h - 1) && Kid(b, lo + |a.ns|, n.c1, Link(at, 1), h - 1)
    requires Kid(c, lo + |a.ns| + |b.ns|, n.c2, Link(at, 2), h - 1)
    requires Kid(d, lo + |a.ns| + |b.ns| + |c.ns|, n.c3, Link(at, 3), h - 1)
    ensures Kid(Join(Join(Join(Join(a, b), c), d), Row(n, u, h)), lo, at, u, h)
  {
    TidyJoin(a, b, lo);
    TidyJoin(Join(a, b), c, lo);
    TidyJoin(Join(Join(a, b), c), d, lo);
    AnnouncedBack(a, b, c, d, lo, n, at, h);
    hide Tidy, Announced;
    TidyLast(Join(Join(Join(a, b), c), d), lo, n, u, h);
  }

  lemma AnnouncedBack(a: Part, b: Part, c: Part, d: Part, lo: nat, n: Node, at: nat, h: nat)
    requires n.next == -1 && n.c0 >= -1 && n.c1 >= -1 && n.c2 >= -1 && n.c3 >= -1 && h > 0
    requires Kid(a, lo, n.c0, Link(at, 0), h - 1) && Kid(b, lo + |a.ns|, n.c1, Link(at, 1), h - 1)
    requires Kid(c, lo + |a.ns| + |b.ns|, n.c2, Link(at, 2), h - 1)
    requires Kid(d, lo + |a.ns| + |b.ns| + |c.ns|, n.c3, Link(at, 3), h - 1)
    ensures Announced(Join(Join(Join(a, b), c), d), lo, n, at, h)
  {
    var ab, abc, abcd := Join(a, b), Join(Join(a, b), c), Join(Join(Join(a, b), c), d);
    hide Tidy;
    TidySizes(a, lo);
    TidySizes(b, lo + |a.ns|);
    TidySizes(c, lo + |a.ns| + |b.ns|);
    TidySizes(d, lo + |a.ns| + |b.ns| + |c.ns|);
    Foretold(a, b, lo, n.c1, Link(at, 1), h);
    Foretold(ab, c, lo, n.c2, Link(at, 2), h);
    Foretold(abc, d, lo, n.c3, Link(at, 3), h);
    assert Foretells(a, lo, n.c0, Link(at, 0), h);
    Farther(a, b, lo, n.c0, Link(at, 0), h);
    Farther(ab, c, lo, n.c0, Link(at, 0), h);
    Farther(ab, c, lo, n.c1, Link(at, 1), h);
    Farther(abc, d, lo, n.c0, Link(at, 0), h);
    Farther(abc, d, lo, n.c1, Link(at, 1), h);
    Farther(abc, d, lo, n.c2, Link(at, 2), h);
    hide Announced, Foretells;
    AllForetold(abcd, lo, n, at, h);
  }

  lemma AllForetold(p: Part, lo: nat, n: Node, at: nat, h: nat)
    requires n.next == -1
    requires Foretells(p, lo, n.c0, Link(at, 0), h) && Foretells(p, lo, n.c1, Link(at, 1), h)
    requires Foretells(p, lo, n.c2, Link(at, 2), h) && Foretells(p, lo, n.c3, Link(at, 3), h)
    ensures Announced(p, lo, n, at, h)
  {
  }

  /** The row a link leads to, if there is one, expects it. */
  ghost predicate Foretells(p: Part, lo: nat, root: int, u: Link, h: nat) {
    && |p.up| == |p.height| == |p.ns|
    && (root >= 0 ==> lo <= root < lo + |p.ns| && p.up[root - lo] == u && p.height[root - lo] < h)
  }

  lemma Foretold(p: Part, a: Part, lo: nat, root: int, u: Link, h: nat)
    requires |p.up| == |p.height| == |p.ns| && h > 0 && Kid(a, lo + |p.ns|, root, u, h - 1)
    ensures Foretells(Join(p, a), lo, root, u, h)
  {
    hide Tidy;
    TidySizes(a, lo + |p.ns|);
  }

  lemma Farther(p: Part, a: Part, lo: nat, root: int, u: Link, h: nat)
    requires Foretells(p, lo, root, u, h) && |a.up| == |a.height| == |a.ns|
    ensures Foretells(Join(p, a), lo, root, u, h)
  {
  }

  lemma TidySizes(p: Part, lo: nat)
    requires Tidy(p.ns, p.up, p.height, lo)
    ensures |p.up| == |p.height| == |p.ns|
  {
  }

  /** A row in front of its only child. */
  lemma CloseFront(a: Part, lo: nat, n: Node, u: Link, h: nat)
    requires n.c1 == n.c2 == n.c3 == n.next == -1 && n.c0 >= -1 && h > 0
    requires Kid(a, lo + 1, n.c0, Link(lo, 0), h - 1)
    ensures Kid(Join(Row(n, u, h), a), lo, lo, u, h)
  {
    TidyFirst(a, lo, n, u, h);
  }

  /** A link set afterwards, from a row that had none in this field to a row that expects it. */
  lemma TidyLink(p: Part, lo: nat, k: nat, j: nat)
    requires Tidy(p.ns, p.up, p.height, lo) && k < |p.ns| && j < |p.ns|
    requires p.up[j] == Link(lo + k, 4) && p.height[j] < p.height[k]
    ensures Tidy(p.ns[k := p.ns[k].(next := lo + j)], p.up, p.height, lo)
  {
    var b := p.ns[k := p.ns[k].(next := lo + j)];
    forall i, f: nat | 0 <= i < |b| && f < 5 && Field(b[i], f) >= 0
      ensures Leads(b, p.up, p.height, lo, i, f)
    {
      assert i != k || f != 4 ==> Leads(p.ns, p.up, p.height, lo, i, f);
    }
  }

  // ---- the table of a tree ----

  /** The incoming links of the rows of a tree; `u` is that of its root. */
  function Up(t: Tree, lo: nat, u: Link): (us: seq<Link>)
    ensures |us| == Size(t)
    decreases t, 2
  {
    if IsStmt(t) then UpStmt(t, lo, u) else UpExpr(t, lo, u)
  }

  function UpExpr(t: Tree, lo: nat, u: Link): (us: seq<Link>)
    requires !IsStmt(t)
    ensures |us| == Size(t)
    decreases t, 1
  {
    var at := Root(t, lo);
    match t
    case Assign(_, _, rhs) => [Link(at, 0)] + Up(rhs, lo + 1, Link(at, 1)) + [u]
    case Bin(_, l, r) => Up(l, lo, Link(at, 0)) + Up(r, lo + Size(l), Link(at, 1)) + [u]
    case Un(_, e) => [u] + Up(e, lo + 1, Link(at, 0))
    case Call(_, args) => [u] + UpList(args, lo + 1, Link(at, 0))
    case _ => [u]
  }

  function UpStmt(t: Tree, lo: nat, u: Link): (us: seq<Link>)
    requires IsStmt(t)
    ensures |us| == Size(t)
    decreases t, 1
  {
    hide Root, Up, UpOpt, UpList;
    var at := Root(t, lo);
    match t
    case Decl(_, i) => UpOpt(i, lo, Link(at, 1)) + [u, Link(at, 0)] + (if i.None? then [Link(at, 1)] else [])
    case If(c, y, n) =>
      Up(c, lo, Link(at, 0)) + Up(y, lo + Size(c), Link(at, 1)) + UpOpt(n, lo + Size(c) + Size(y), Link(at, 2)) + [u]
    case While(c, b) => Up(c, lo, Link(at, 0)) + Up(b, lo + Size(c), Link(at, 1)) + [u]
    case For(i, c, p, b) =>
      UpOpt(i, lo, Link(at, 0)) + UpOpt(c, lo + OptSize(i), Link(at, 1))
      + UpOpt(p, lo + OptSize(i) + OptSize(c), Link(at, 2))
      + Up(b, lo + OptSize(i) + OptSize(c) + OptSize(p), Link(at, 3)) + [u]
    case Return(v) => [u] + UpOpt(v, lo + 1, Link(at, 0))
    case Block(ss) => [u] + UpList(ss, lo + 1, Link(at, 0))
    case ExprStmt(e) => Up(e, lo, Link(at, 0)) + [u]
    case _ => [u]
  }

  function UpList(ts: Trees, lo: nat, u: Link): (us: seq<Link>)
    ensures |us| == ListSize(ts)
  {
    if ts.Nil? then [] else Up(ts.head, lo, u) + UpList(ts.tail, lo + Size(ts.head), Link(Root(ts.head, lo), 4))
  }

  function UpOpt(o: Opt, lo: nat, u: Link): (us: seq<Link>)
    ensures |us| == OptSize(o)
  {
    if o.None? then [] else Up(o.t, lo, u)
  }

  /** Heights: a root is as high as the rows of its tree and of the trees behind it in its list. */
  function Heights(t: Tree, behind: nat): (hs: seq<nat>)
    ensures |hs| == Size(t)
    decreases t, 2
  {
    if IsStmt(t) then HeightsStmt(t, behind) else HeightsExpr(t, behind)
  }

  function HeightsExpr(t: Tree, behind: nat): (hs: seq<nat>)
    requires !IsStmt(t)
    ensures |hs| == Size(t)
    decreases t, 1
  {
    var h: seq<nat> := [Size(t) + behind];
    match t
    case Assign(_, _, rhs) => [1] + Heights(rhs, 0) + h
    case Bin(_, l, r) => Heights(l, 0) + Heights(r, 0) + h
    case Un(_, e) => h + Heights(e, 0)
    case Call(_, args) => h + HeightsList(args)
    case _ => h
  }

  function HeightsStmt(t: Tree, behind: nat): (hs: seq<nat>)
    requires IsStmt(t)
    ensures |hs| == Size(t)
    decreases t, 1
  {
    hide HeightsOpt, HeightsList, Heights;
    var h: seq<nat> := [Size(t) + behind];
    match t
    case Decl(_, i) => HeightsOpt(i) + h + (if i.None? then [1, 1] else [1])
    case If(c, y, n) => Heights(c, 0) + Heights(y, 0) + HeightsOpt(n) + h
    case While(c, b) => Heights(c, 0) + Heights(b, 0) + h
    case For(i, c, p, b) => HeightsOpt(i) + HeightsOpt(c) + HeightsOpt(p) + Heights(b, 0) + h
    case Return(v) => h + HeightsOpt(v)
    case Block(ss) => h + HeightsList(ss)
    case ExprStmt(e) => Heights(e, 0) + h
    case _ => h
  }

  function HeightsList(ts: Trees): (hs: seq<nat>)
    ensures |hs| == ListSize(ts)
  {
    if ts.Nil? then [] else Heights(ts.head, ListSize(ts.tail)) + HeightsList(ts.tail)
  }

  function HeightsOpt(o: Opt): (hs: seq<nat>)
    ensures |hs| == OptSize(o)
  {
    if o.None? then [] else Heights(o.t, 0)
  }

  /** The root of a tree expects the link it is given, and has the height of all that hangs on it. */
  lemma AtRoot(t: Tree, lo: nat, u: Link, behind: nat)
    ensures var k := Root(t, lo) - lo; Up(t, lo, u)[k] == u && Heights(t, behind)[k] == Size(t) + behind
  {
    hide Size, UpList, HeightsList;
  }

  function PartOf(t: Tree, lo: nat, u: Link, behind: nat): Part {
    Part(Layout(t, lo, -1), Up(t, lo, u), Heights(t, behind))
  }

  function OptPart(o: Opt, lo: nat, u: Link): Part {
    if o.None? then NOTHING else PartOf(o.t, lo, u, 0)
  }

  function ListPart(ts: Trees, lo: nat, u: Link): Part {
    Part(ListLayout(ts, lo), UpList(ts, lo, u), HeightsList(ts))
  }

  lemma {:induction false} TreeIsKid(t: Tree, lo: nat, u: Link, behind: nat)
    ensures Kid(PartOf(t, lo, u, behind), lo, Root(t, lo), u, Size(t) + behind)
    decreases t, 2
  {
    hide Kid, ExprRows, StmtRows, UpExpr, UpStmt, HeightsExpr, HeightsStmt;
    if IsStmt(t) { StmtIsKid(t, lo, u, behind); } else { ExprIsKid(t, lo, u, behind); }
  }

  lemma {:induction false} OptIsKid(o: Opt, lo: nat, u: Link)
    ensures Kid(OptPart(o, lo, u), lo, OptRoot(o, lo), u, OptSize(o))
    ensures OptPart(o, lo, u) == Part(OptLayout(o, lo), UpOpt(o, lo, u), HeightsOpt(o))
    decreases o, 3
  {
    hide Layout, Up, Heights;
    if o.Some? { TreeIsKid(o.t, lo, u, 0); }
  }

  lemma {:induction false} ListIsKid(ts: Trees, lo: nat, u: Link)
    ensures Kid(ListPart(ts, lo, u), lo, FirstRoot(ts, lo), u, ListSize(ts))
    decreases ts, 3
  {
    hide Layout, Up, Heights, Root;
    if ts.Cons? {
      var m, k := lo + Size(ts.head), Root(ts.head, lo) - lo;
      var tail := ListPart(ts.tail, m, Link(Root(ts.head, lo), 4));
      TreeIsKid(ts.head, lo, u, ListSize(ts.tail));
      ListIsKid(ts.tail, m, Link(Root(ts.head, lo), 4));
      AtRoot(ts.head, lo, u, ListSize(ts.tail));
      LinkedHead(ts, lo, u);
    }
  }

  /** The head of a list, its root linked to the first root of the tail. */
  lemma LinkedHead(ts: Trees, lo: nat, u: Link)
    requires ts.Cons?
    requires Kid(PartOf(ts.head, lo, u, ListSize(ts.tail)), lo, Root(ts.head, lo), u, ListSize(ts))
    requires var m := lo + Size(ts.head);
      Kid(ListPart(ts.tail, m, Link(Root(ts.head, lo), 4)), m, FirstRoot(ts.tail, m), Link(Root(ts.head, lo), 4),
          ListSize(ts.tail))
    requires Heights(ts.head, ListSize(ts.tail))[Root(ts.head, lo) - lo] == ListSize(ts)
    ensures Kid(ListPart(ts, lo, u), lo, FirstRoot(ts, lo), u, ListSize(ts))
  {
    hide Layout, Up, Heights, Root, Tidy;
    var m, k := lo + Size(ts.head), Root(ts.head, lo) - lo;
    var head := PartOf(ts.head, lo, u, ListSize(ts.tail));
    var tail := ListPart(ts.tail, m, Link(Root(ts.head, lo), 4));
    TidyJoin(head, tail, lo);
    Relink(ts.head, lo, FirstRoot(ts.tail, m));
    var p := Join(head, tail);
    if ts.tail.Cons? {
      TidyLink(p, lo, k, FirstRoot(ts.tail, m) - lo);
      assert ListLayout(ts, lo) == p.ns[k := p.ns[k].(next := FirstRoot(ts.tail, m))];
    } else {
      assert ListLayout(ts, lo) == p.ns;
    }
  }

  lemma EmptyKid(lo: nat, u: Link, h: nat)
    ensures Kid(NOTHING, lo, -1, u, h)
  {
  }

  lemma Higher(p: Part, lo: nat, root: int, u: Link, h: nat, g: nat)
    requires Kid(p, lo, root, u, h) && h <= g
    ensures Kid(p, lo, root, u, g)
  {
  }

  /** The height bound of a child, below that of its parent. */
  lemma {:induction false} TreeBelow(t: Tree, lo: nat, u: Link, g: nat)
    requires Size(t) <= g
    ensures Kid(PartOf(t, lo, u, 0), lo, Root(t, lo), u, g)
    decreases t, 3
  {
    hide Kid, Layout, Up, Heights, Root, Size;
    TreeIsKid(t, lo, u, 0);
    Higher(PartOf(t, lo, u, 0), lo, Root(t, lo), u, Size(t), g);
  }

  lemma {:induction false} OptBelow(o: Opt, lo: nat, u: Link, g: nat)
    requires OptSize(o) <= g
    ensures Kid(OptPart(o, lo, u), lo, OptRoot(o, lo), u, g)
    ensures OptPart(o, lo, u) == Part(OptLayout(o, lo), UpOpt(o, lo, u), HeightsOpt(o))
    decreases o, 4
  {
    hide Kid, Layout, Up, Heights, OptRoot;
    OptIsKid(o, lo, u);
    Higher(OptPart(o, lo, u), lo, OptRoot(o, lo), u, OptSize(o), g);
  }

  function RowsOfExpr(t: Tree, lo: nat, u: Link, behind: nat): Part
    requires !IsStmt(t)
  {
    Part(ExprRows(t, lo, -1), UpExpr(t, lo, u), HeightsExpr(t, behind))
  }

  function RowsOfStmt(t: Tree, lo: nat, u: Link, behind: nat): Part
    requires IsStmt(t)
  {
    Part(StmtRows(t, lo, -1), UpStmt(t, lo, u), HeightsStmt(t, behind))
  }

  lemma {:induction false} ExprIsKid(t: Tree, lo: nat, u: Link, behind: nat)
    requires !IsStmt(t)
    ensures Kid(RowsOfExpr(t, lo, u, behind), lo, Root(t, lo), u, Size(t) + behind)
    decreases t, 1
  {
    hide Kid, Tidy, Layout, ListLayout, Up, UpList, Heights, HeightsList, ExprRows, UpExpr, HeightsExpr, PartOf,
         FirstRoot;
    match t
    case Assign(op, n, rhs) =>
      TreeBelow(rhs, lo + 1, Link(Root(t, lo), 1), Size(t) + behind - 1);
      AssignKids(t, lo, u, Size(t) + behind);
    case Bin(op, l, r) =>
      TreeBelow(l, lo, Link(Root(t, lo), 0), Size(t) + behind - 1);
      TreeBelow(r, lo + Size(l), Link(Root(t, lo), 1), Size(t) + behind - 1);
      BinKids(t, lo, u, Size(t) + behind);
    case Un(_, e) =>
      TreeBelow(e, lo + 1, Link(lo, 0), Size(t) + behind - 1);
      PrefixKid(t, PartOf(e, lo + 1, Link(lo, 0), 0), lo, u, Size(t) + behind);
    case Call(_, args) =>
      ListIsKid(args, lo + 1, Link(lo, 0));
      Higher(ListPart(args, lo + 1, Link(lo, 0)), lo + 1, FirstRoot(args, lo + 1), Link(lo, 0), ListSize(args),
          Size(t) + behind - 1);
      PrefixKid(t, ListPart(args, lo + 1, Link(lo, 0)), lo, u, Size(t) + behind);
    case _ =>
      PlainKid(t, lo, u, behind);
  }

  lemma AssignKids(t: Tree, lo: nat, u: Link, h: nat)
    requires t.Assign? && h >= Size(t)
    requires Kid(PartOf(t.rhs, lo + 1, Link(Root(t, lo), 1), 0), lo + 1, Root(t.rhs, lo + 1), Link(Root(t, lo), 1),
        h - 1)
    ensures Kid(RowsOfExpr(t, lo, u, h - Size(t)), lo, Root(t, lo), u, h)
  {
    hide Kid, Layout, Up, Heights;
    var at, rows := Root(t, lo), RowsOfExpr(t, lo, u, h - Size(t));
    var p, q := Row(Blank(NVar).(name := t.name), Link(at, 0), 1), PartOf(t.rhs, lo + 1, Link(at, 1), 0);
    LeafKid(Blank(NVar).(name := t.name), lo, Link(at, 0), 1, h - 1);
    hide Size;
    EmptyKid(at, Link(at, 2), h - 1);
    EmptyKid(at, Link(at, 3), h - 1);
    CloseBack(p, q, NOTHING, NOTHING, lo, rows.ns[|rows.ns| - 1], at, u, h);
    assert rows == Join(Join(Join(Join(p, q), NOTHING), NOTHING), Row(rows.ns[|rows.ns| - 1], u, h));
  }

  lemma BinKids(t: Tree, lo: nat, u: Link, h: nat)
    requires t.Bin? && h >= Size(t)
    requires var at, m := Root(t, lo), lo + Size(t.l);
      && Kid(PartOf(t.l, lo, Link(at, 0), 0), lo, Root(t.l, lo), Link(at, 0), h - 1)
      && Kid(PartOf(t.r, m, Link(at, 1), 0), m, Root(t.r, m), Link(at, 1), h - 1)
    ensures Kid(RowsOfExpr(t, lo, u, h - Size(t)), lo, Root(t, lo), u, h)
  {
    hide Kid, Layout, Up, Heights, Size;
    var at, rows := Root(t, lo), RowsOfExpr(t, lo, u, h - Size(t));
    var p, q := PartOf(t.l, lo, Link(at, 0), 0), PartOf(t.r, lo + Size(t.l), Link(at, 1), 0);
    EmptyKid(at, Link(at, 2), h - 1);
    EmptyKid(at, Link(at, 3), h - 1);
    CloseBack(p, q, NOTHING, NOTHING, lo, rows.ns[|rows.ns| - 1], at, u, h);
    assert rows == Join(Join(Join(Join(p, q), NOTHING), NOTHING), Row(rows.ns[|rows.ns| - 1], u, h));
  }

  lemma PrefixKid(t: Tree, p: Part, lo: nat, u: Link, h: nat)
    requires (t.Un? && p == PartOf(t.e, lo + 1, Link(lo, 0), 0)) || (t.Call? && p == ListPart(t.args, lo + 1,
        Link(lo, 0)))
    requires h >= Size(t)
    requires Kid(p, lo + 1, if t.Un? then Root(t.e, lo + 1) else FirstRoot(t.args, lo + 1), Link(lo, 0), h - 1)
    ensures Kid(RowsOfExpr(t, lo, u, h - Size(t)), lo, Root(t, lo), u, h)
  {
    hide Kid, Layout, ListLayout, Up, UpList, Heights, HeightsList, FirstRoot, Size;
    var rows := RowsOfExpr(t, lo, u, h - Size(t));
    CloseFront(p, lo, rows.ns[0], u, h);
    assert rows == Join(Row(rows.ns[0], u, h), p);
  }

  lemma PlainKid(t: Tree, lo: nat, u: Link, behind: nat)
    requires t.Num? || t.Str? || t.Var?
    ensures Kid(RowsOfExpr(t, lo, u, behind), lo, Root(t, lo), u, Size(t) + behind)
  {
    hide Kid;
    LeafKid(RowsOfExpr(t, lo, u, behind).ns[0], lo, u, Size(t) + behind, Size(t) + behind);
  }

  lemma LeafKid(n: Node, lo: nat, u: Link, h: nat, g: nat)
    requires n.c0 == n.c1 == n.c2 == n.c3 == n.next == -1 && h <= g
    ensures Kid(Row(n, u, h), lo, lo, u, g)
  {
  }

  lemma {:induction false} StmtIsKid(t: Tree, lo: nat, u: Link, behind: nat)
    requires IsStmt(t)
    ensures Kid(RowsOfStmt(t, lo, u, behind), lo, Root(t, lo), u, Size(t) + behind)
    decreases t, 1
  {
    hide Kid, Tidy, Layout, ListLayout, OptLayout, OptPart, UpOpt, HeightsOpt, Up, UpList, Heights, HeightsList,
         IfRow, ForRow, PartOf, StmtRows, UpStmt, HeightsStmt, FirstRoot, OptRoot;
    match t
    case Decl(_, i) => DeclIsKid(t, lo, u, behind);
    case If(_, _, _) => BranchIsKid(t, lo, u, behind);
    case While(_, _) => BranchIsKid(t, lo, u, behind);
    case For(_, _, _, _) => BranchIsKid(t, lo, u, behind);
    case Return(v) =>
      OptBelow(v, lo + 1, Link(lo, 0), Size(t) + behind - 1);
      FrontKid(t, OptPart(v, lo + 1, Link(lo, 0)), lo, u, Size(t) + behind);
    case Block(ss) =>
      ListIsKid(ss, lo + 1, Link(lo, 0));
      Higher(ListPart(ss, lo + 1, Link(lo, 0)), lo + 1, FirstRoot(ss, lo + 1), Link(lo, 0), ListSize(ss),
          Size(t) + behind - 1);
      FrontKid(t, ListPart(ss, lo + 1, Link(lo, 0)), lo, u, Size(t) + behind);
    case ExprStmt(e) =>
      TreeBelow(e, lo, Link(Root(t, lo), 0), Size(t) + behind - 1);
      ExprStmtKid(e, lo, u, Size(t) + behind);
    case _ =>
      JumpKid(t, lo, u, behind);
  }

  lemma {:induction false} BranchIsKid(t: Tree, lo: nat, u: Link, behind: nat)
    requires t.If? || t.While? || t.For?
    ensures Kid(RowsOfStmt(t, lo, u, behind), lo, Root(t, lo), u, Size(t) + behind)
    decreases t, 0
  {
    hide Kid, Tidy, Layout, OptLayout, OptPart, UpOpt, HeightsOpt, Up, Heights, IfRow, ForRow, PartOf, StmtRows,
         UpStmt, HeightsStmt, OptRoot;
    match t
    case If(c, y, n) =>
      var at, g := Root(t, lo), Size(t) + behind - 1;
      TreeBelow(c, lo, Link(at, 0), g);
      TreeBelow(y, lo + Size(c), Link(at, 1), g);
      OptBelow(n, lo + Size(c) + Size(y), Link(at, 2), g);
      IfKids(c, y, n, lo, u, g + 1);
    case While(c, b) =>
      var at, g := Root(t, lo), Size(t) + behind - 1;
      TreeBelow(c, lo, Link(at, 0), g);
      TreeBelow(b, lo + Size(c), Link(at, 1), g);
      WhileKids(c, b, lo, u, g + 1);
    case For(i, c, p, b) =>
      var at, g := Root(t, lo), Size(t) + behind - 1;
      OptBelow(i, lo, Link(at, 0), g);
      OptBelow(c, lo + OptSize(i), Link(at, 1), g);
      OptBelow(p, lo + OptSize(i) + OptSize(c), Link(at, 2), g);
      TreeBelow(b, lo + OptSize(i) + OptSize(c) + OptSize(p), Link(at, 3), g);
      ForKids(i, c, p, b, lo, u, g + 1);
  }

  lemma JumpKid(t: Tree, lo: nat, u: Link, behind: nat)
    requires t.Break? || t.Cont?
    ensures Kid(RowsOfStmt(t, lo, u, behind), lo, Root(t, lo), u, Size(t) + behind)
  {
    hide Kid;
    LeafKid(RowsOfStmt(t, lo, u, behind).ns[0], lo, u, Size(t) + behind, Size(t) + behind);
  }

  lemma FrontKid(t: Tree, p: Part, lo: nat, u: Link, h: nat)
    requires (t.Return? && p == Part(OptLayout(t.value, lo + 1), UpOpt(t.value, lo + 1, Link(lo, 0)),
        HeightsOpt(t.value)))
          || (t.Block? && p == ListPart(t.body_, lo + 1, Link(lo, 0)))
    requires h >= Size(t)
    requires Kid(p, lo + 1, if t.Return? then OptRoot(t.value, lo + 1)
        else FirstRoot(t.body_, lo + 1), Link(lo, 0), h - 1)
    ensures Kid(RowsOfStmt(t, lo, u, h - Size(t)), lo, Root(t, lo), u, h)
  {
    hide Kid, Layout, OptLayout, ListLayout, UpOpt, UpList, HeightsOpt, HeightsList, OptRoot, FirstRoot, Size;
    var rows := RowsOfStmt(t, lo, u, h - Size(t));
    CloseFront(p, lo, rows.ns[0], u, h);
    assert rows == Join(Row(rows.ns[0], u, h), p);
  }

  lemma ExprStmtKid(e: Tree, lo: nat, u: Link, h: nat)
    requires h >= Size(ExprStmt(e))
    requires var at := Root(ExprStmt(e), lo); Kid(PartOf(e, lo, Link(at, 0), 0), lo, Root(e, lo), Link(at, 0), h - 1)
    ensures Kid(RowsOfStmt(ExprStmt(e), lo, u, h - Size(ExprStmt(e))), lo, Root(ExprStmt(e), lo), u, h)
  {
    hide Kid, Layout, Up, Heights, Size;
    var t := ExprStmt(e);
    var at, rows := Root(t, lo), RowsOfStmt(t, lo, u, h - Size(t));
    var p := PartOf(e, lo, Link(at, 0), 0);
    EmptyKid(at, Link(at, 1), h - 1);
    EmptyKid(at, Link(at, 2), h - 1);
    EmptyKid(at, Link(at, 3), h - 1);
    CloseBack(p, NOTHING, NOTHING, NOTHING, lo, rows.ns[|rows.ns| - 1], at, u, h);
    assert rows == Join(Join(Join(Join(p, NOTHING), NOTHING), NOTHING), Row(rows.ns[|rows.ns| - 1], u, h));
  }

  lemma WhileKids(c: Tree, b: Tree, lo: nat, u: Link, h: nat)
    requires h >= Size(While(c, b))
    requires var at, m := Root(While(c, b), lo), lo + Size(c);
      && Kid(PartOf(c, lo, Link(at, 0), 0), lo, Root(c, lo), Link(at, 0), h - 1)
      && Kid(PartOf(b, m, Link(at, 1), 0), m, Root(b, m), Link(at, 1), h - 1)
    ensures Kid(RowsOfStmt(While(c, b), lo, u, h - Size(While(c, b))), lo, Root(While(c, b), lo), u, h)
  {
    hide Kid, Layout, Up, Heights, Size;
    var t := While(c, b);
    var at, rows := Root(t, lo), RowsOfStmt(t, lo, u, h - Size(t));
    var p, q := PartOf(c, lo, Link(at, 0), 0), PartOf(b, lo + Size(c), Link(at, 1), 0);
    EmptyKid(at, Link(at, 2), h - 1);
    EmptyKid(at, Link(at, 3), h - 1);
    CloseBack(p, q, NOTHING, NOTHING, lo, rows.ns[|rows.ns| - 1], at, u, h);
    assert rows == Join(Join(Join(Join(p, q), NOTHING), NOTHING), Row(rows.ns[|rows.ns| - 1], u, h));
  }

  lemma IfKids(c: Tree, y: Tree, n: Opt, lo: nat, u: Link, h: nat)
    requires var t := If(c, y, n); h >= Size(t)
    requires var at, m := Root(If(c, y, n), lo), lo + Size(c);
      && Kid(PartOf(c, lo, Link(at, 0), 0), lo, Root(c, lo), Link(at, 0), h - 1)
      && Kid(PartOf(y, m, Link(at, 1), 0), m, Root(y, m), Link(at, 1), h - 1)
      && Kid(OptPart(n, m + Size(y), Link(at, 2)), m + Size(y), OptRoot(n, m + Size(y)), Link(at, 2), h - 1)
      && OptPart(n, m + Size(y), Link(at, 2))
         == Part(OptLayout(n, m + Size(y)), UpOpt(n, m + Size(y), Link(at, 2)), HeightsOpt(n))
    ensures Kid(RowsOfStmt(If(c, y, n), lo, u, h - Size(If(c, y, n))), lo, Root(If(c, y, n), lo), u, h)
  {
    hide Kid, Layout, OptLayout, OptPart, UpOpt, HeightsOpt, Up, Heights, Size, OptSize, OptRoot;
    var t, m := If(c, y, n), lo + Size(c);
    var at, rows := Root(t, lo), RowsOfStmt(t, lo, u, h - Size(t));
    var p, q, r := PartOf(c, lo, Link(at, 0), 0), PartOf(y, m, Link(at, 1), 0), OptPart(n, m + Size(y), Link(at, 2));
    EmptyKid(at, Link(at, 3), h - 1);
    CloseBack(p, q, r, NOTHING, lo, IfRow(c, y, n, lo, -1), at, u, h);
    assert IfParts(c, y, n, lo) == p.ns + q.ns + r.ns;
    assert rows == Join(Join(Join(Join(p, q), r), NOTHING), Row(IfRow(c, y, n, lo, -1), u, h));
  }

  lemma ForPartIs(i: Opt, c: Opt, p: Opt, b: Tree, lo: nat, u: Link, behind: nat)
    ensures var t, x, y, z := For(i, c, p, b), lo + OptSize(i), lo + OptSize(i) + OptSize(c),
                              lo + OptSize(i) + OptSize(c) + OptSize(p);
      var at := Root(t, lo);
      RowsOfStmt(t, lo, u, behind)
      == Part(OptLayout(i, lo) + OptLayout(c, x) + OptLayout(p, y) + Layout(b, z, -1) + [ForRow(i, c, p, b, lo, -1)],
              UpOpt(i, lo, Link(at, 0)) + UpOpt(c, x, Link(at, 1)) + UpOpt(p, y, Link(at, 2))
              + Up(b, z, Link(at, 3)) + [u],
              HeightsOpt(i) + HeightsOpt(c) + HeightsOpt(p) + Heights(b, 0) + [Size(t) + behind])
  {
    hide Layout, OptLayout, UpOpt, HeightsOpt, Up, Heights, Size, OptSize, OptRoot, Root, ForRow;
    var x, y, z := lo + OptSize(i), lo + OptSize(i) + OptSize(c), lo + OptSize(i) + OptSize(c) + OptSize(p);
    assert ForParts(i, c, p, b, lo) == OptLayout(i, lo) + OptLayout(c, x) + OptLayout(p, y) + Layout(b, z, -1);
  }

  lemma ForKids(i: Opt, c: Opt, p: Opt, b: Tree, lo: nat, u: Link, h: nat)
    requires h >= Size(For(i, c, p, b))
    requires var at, x, y, z := Root(For(i, c, p, b), lo), lo + OptSize(i), lo + OptSize(i) + OptSize(c),
        lo + OptSize(i) + OptSize(c) + OptSize(p);
      && Kid(OptPart(i, lo, Link(at, 0)), lo, OptRoot(i, lo), Link(at, 0), h - 1)
      && Kid(OptPart(c, x, Link(at, 1)), x, OptRoot(c, x), Link(at, 1), h - 1)
      && Kid(OptPart(p, y, Link(at, 2)), y, OptRoot(p, y), Link(at, 2), h - 1)
      && Kid(PartOf(b, z, Link(at, 3), 0), z, Root(b, z), Link(at, 3), h - 1)
      && OptPart(i, lo, Link(at, 0)) == Part(OptLayout(i, lo), UpOpt(i, lo, Link(at, 0)), HeightsOpt(i))
      && OptPart(c, x, Link(at, 1)) == Part(OptLayout(c, x), UpOpt(c, x, Link(at, 1)), HeightsOpt(c))
      && OptPart(p, y, Link(at, 2)) == Part(OptLayout(p, y), UpOpt(p, y, Link(at, 2)), HeightsOpt(p))
    ensures Kid(RowsOfStmt(For(i, c, p, b), lo, u, h - Size(For(i, c, p, b))), lo, Root(For(i, c, p, b), lo), u, h)
  {
    hide Kid, Layout, OptLayout, OptPart, UpOpt, HeightsOpt, Up, Heights, Size, OptSize, OptRoot;
    var t, x, y, z := For(i, c, p, b), lo + OptSize(i), lo + OptSize(i) + OptSize(c),
        lo + OptSize(i) + OptSize(c) + OptSize(p);
    var at, rows := Root(t, lo), RowsOfStmt(t, lo, u, h - Size(t));
    var k0, k1, k2, k3 := OptPart(i, lo, Link(at, 0)), OptPart(c, x, Link(at, 1)), OptPart(p, y, Link(at, 2)),
        PartOf(b, z, Link(at, 3), 0);
    CloseBack(k0, k1, k2, k3, lo, ForRow(i, c, p, b, lo, -1), at, u, h);
    ForPartIs(i, c, p, b, lo, u, h - Size(t));
    hide RowsOfStmt;
    assert rows == Join(Join(Join(Join(k0, k1), k2), k3), Row(ForRow(i, c, p, b, lo, -1), u, h));
  }

  /** A declaration links forward to the variable behind it. */
  lemma {:induction false} DeclIsKid(t: Tree, lo: nat, u: Link, behind: nat)
    requires t.Decl?
    ensures Kid(RowsOfStmt(t, lo, u, behind), lo, Root(t, lo), u, Size(t) + behind)
    decreases t, 0
  {
    hide Layout, OptLayout, OptPart, UpOpt, HeightsOpt, Up, Heights;
    var at, rows := Root(t, lo), RowsOfStmt(t, lo, u, behind);
    OptIsKid(t.init, lo, Link(at, 1));
    var p := OptPart(t.init, lo, Link(at, 1));
    forall k, f: nat | 0 <= k < |rows.ns| && f < 5 && Field(rows.ns[k], f) >= 0
      ensures Leads(rows.ns, rows.up, rows.height, lo, k, f)
    {
      if k < |p.ns| {
        assert Leads(p.ns, p.up, p.height, lo, k, f);
      }
    }
  }

  // ---- whole programs ----

  lemma {:induction false} ProgramIsTidy(fs: seq<Func>) returns (p: Part)
    ensures p.ns == ProgramRows(fs) && Tidy(p.ns, p.up, p.height, 0)
  {
    hide Layout, Up, Heights;
    if fs == [] {
      p := NOTHING;
    } else {
      var q := ProgramIsTidy(fs[..|fs| - 1]);
      var b := fs[|fs| - 1].body;
      TreeIsKid(b, |q.ns|, Link(-1, 0), 0);
      TidyJoin(q, PartOf(b, |q.ns|, Link(-1, 0), 0), 0);
      p := Join(q, PartOf(b, |q.ns|, Link(-1, 0), 0));
    }
  }

  /** In the table of any program every row has at most one incoming link, and no path of links comes back to a row. */
  lemma ProgramIsForest(fs: seq<Func>, path: seq<nat>, i: nat, j: nat)
    ensures OneParent(ProgramRows(fs))
    ensures IsPath(ProgramRows(fs), path) && i < j < |path| ==> path[i] != path[j]
  {
    hide Tidy, OneParent, IsPath, ProgramRows;
    var p := ProgramIsTidy(fs);
    TidyOneParent(p.ns, p.up, p.height);
    if IsPath(p.ns, path) && i < j < |path| {
      PathFalls(p.ns, p.up, p.height, path, i, j);
    }
  }
}
