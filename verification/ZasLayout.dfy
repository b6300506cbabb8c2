/** The two passes lay the program out alike, so that branches land on their labels; and what the assembler gets
    wrong. */
module ZasLayout {
  import opened Bytes
  import opened ZasLines

  function ItemSize(i: Item): nat { if i.Chars? then |i.bytes| else 1 }

  function ItemsSize(items: seq<Item>): nat {
    if items == [] then 0 else ItemSize(items[0]) + ItemsSize(items[1..])
  }

  lemma {:induction false} ItemsBytesSize(ls: seq<Lab>, items: seq<Item>)
    ensures |ItemsBytes(ls, items)| == ItemsSize(items)
  {
    if items != [] { ItemsBytesSize(ls, items[1..]); }
  }

  /** Bytes a line stands for when its count, if it has one, is `n`. */
  function LineSize(sec: Sec, l: Line, n: nat): nat {
    match l
    case Db(items) => ItemsSize(items)
    case Dw(_) => 2
    case Dd(_) => 4
    case Times(_, _) => n
    case Resb(_) => if sec.Bss? then 0 else n
    case Code(i) => |Encode(i)|
    case PushName(_) => 5
    case MovName(_, _) => 5
    case Branch(j, _) => |JumpOp(j)| + 4
    case JmpTo(_) => 5
    case _ => 0
  }

  /** The count of a line under a label table. */
  function CountIn(labs: seq<Lab>, l: Line): nat {
    if l.Times? || l.Resb? then ValueOf(labs, l.count) else 0
  }

  /** The labels a table has room for, in the order in which they are first met. */
  function Known(ls: seq<Line>): seq<string> {
    if ls == [] then []
    else
      var k := |ls| - 1;
      var names := Known(ls[..k]);
      if ls[k].Label? && ls[k].name !in names && |names| < 128 then names + [ls[k].name] else names
  }

  /** The count of a line when these names are known. An address is more than any buffer holds, and VMA stands for
      all of them; an unknown name counts as 0. */
  function CountOf(names: seq<string>, l: Line): nat {
    if !l.Times? && !l.Resb? then 0
    else if l.count.Number? then l.count.v
    else if l.count.name in names then VMA
    else 0
  }

  function SecAfter(sec: Sec, l: Line): Sec { if l.Section? then l.to else sec }

  function SecAt(ls: seq<Line>, k: nat): Sec
    requires k <= |ls|
  {
    if k == 0 then Text else SecAfter(SecAt(ls, k - 1), ls[k - 1])
  }

  /** Where the first pass starts line `k` when nothing is cut off: a count can only name a label before it. */
  function Start(ls: seq<Line>, k: nat): nat
    requires k <= |ls|
  {
    if k == 0 then 0
    else Start(ls, k - 1) + LineSize(SecAt(ls, k - 1), ls[k - 1], CountOf(Known(ls[..k - 1]), ls[k - 1]))
  }

  /** Where the second pass does: it knows all labels. */
  function StartAgain(ls: seq<Line>, k: nat): nat
    requires k <= |ls|
  {
    if k == 0 then 0
    else StartAgain(ls, k - 1) + LineSize(SecAt(ls, k - 1), ls[k - 1], CountOf(Known(ls), ls[k - 1]))
  }

  function Min(a: nat, b: nat): nat { if a <= b then a else b }

  lemma EmitGrows(s: State, b: seq<byte>)
    requires |s.out| <= OUT_MAX
    ensures var t := Emit(s, b);
      && |t.out| == Min(|s.out| + |b|, OUT_MAX) && s.out <= t.out && t == s.(out := t.out)
      && (|s.out| + |b| <= OUT_MAX ==> t.out == s.out + b)
  {
  }

  /** Between the two states `n` bytes have been written, as far as there was room. */
  ghost predicate Wrote(s: State, t: State, n: nat) {
    |t.out| == Min(|s.out| + n, OUT_MAX) && s.out <= t.out && t.sec == s.sec
  }

  lemma EmitWrote(s: State, t: State, b: seq<byte>)
    requires |s.out| <= OUT_MAX && t.out == s.out && t.sec == s.sec
    ensures Wrote(s, Emit(t, b), |b|) && |Emit(t, b).out| <= OUT_MAX
  {
    EmitGrows(t, b);
  }

  lemma WroteNothing(s: State, t: State)
    requires |s.out| <= OUT_MAX && t.out == s.out && t.sec == s.sec
    ensures Wrote(s, t, 0)
  {
  }

  lemma WroteTwice(s: State, t: State, u: State, m: nat, n: nat)
    requires Wrote(s, t, m) && Wrote(t, u, n)
    ensures Wrote(s, u, m + n)
  {
  }

  lemma BranchWrote(pass: nat, s: State, op: seq<byte>, target: string)
    requires |s.out| <= OUT_MAX
    ensures Wrote(s, BranchStep(pass, s, op, target), |op| + 4)
  {
    hide Emit, Word, CurVma, AddrOf, Find, Wrote;
    EmitWrote(s, s, op);
    var t := Emit(s, op);
    var word := Word(Wrap(AddrOf(t.labels, target) - (CurVma(t) + 4)));
    EmitWrote(t, t, word);
    WroteTwice(s, t, Emit(t, word), |op|, 4);
    var u := if pass == 2 then WithFixup(t, Fixup(|t.out|, target, Wrap(CurVma(t) + 4), true)) else t;
    EmitWrote(t, u, Word(0));
    WroteTwice(s, t, Emit(u, Word(0)), |op|, 4);
  }

  lemma LineWrote(pass: nat, s: State, l: Line)
    requires |s.out| <= OUT_MAX && !l.Section? && !l.Label?
    ensures Wrote(s, LineStep(pass, s, l), LineSize(s.sec, l, CountIn(s.labels, l)))
  {
    hide Emit, ItemsBytes, ItemsSize, Encode, Word, CurVma, ValueOf, AddrOf, BranchStep, Find, Wrote;
    match l
    case Db(items) =>
      ItemsBytesSize(s.labels, items);
      EmitWrote(s, s, ItemsBytes(s.labels, items));
    case Dw(e) =>
      var v: int := ValueOf(s.labels, e);
      EmitWrote(s, s, [v % 256, v / 256 % 256]);
    case Dd(e) =>
      var t := if e.Named? && Find(s.labels, e.name, 0) < 0 && pass == 2 then WithFixup(s,
          Fixup(|s.out|, e.name, 0, false)) else s;
      EmitWrote(s, t, Word(ValueOf(s.labels, e)));
    case Times(c, e) => EmitWrote(s, s, Repeat(ValueOf(s.labels, c), ValueOf(s.labels, e) % 256));
    case Resb(c) =>
      WroteNothing(s, s.(bssSize := s.bssSize + ValueOf(s.labels, c)));
      EmitWrote(s, s, Repeat(ValueOf(s.labels, c), 0));
    case Code(i) => EmitWrote(s, s, Encode(i));
    case PushName(n) => EmitWrote(s, s, [0x68] + Word(AddrOf(s.labels, n)));
    case MovName(r, n) =>
      var t := if Find(s.labels, n, 0) < 0 && pass == 2 then WithFixup(s, Fixup(|s.out| + 1, n, 0, false)) else s;
      EmitWrote(s, t, [0xB8 + RegCode(r)] + Word(AddrOf(s.labels, n)));
    case Branch(j, target) => BranchWrote(pass, s, JumpOp(j), target);
    case JmpTo(a) =>
      var t := Emit(s, [0xE9]);
      EmitWrote(s, s, [0xE9]);
      var word := Word(Wrap(a - (CurVma(t) + 4)));
      EmitWrote(t, t, word);
      WroteTwice(s, t, Emit(t, word), 1, 4);
    case _ => WroteNothing(s, s);
  }

  /** A line writes as many bytes as it stands for, in both passes, up to the end of the buffer; what has been written
      stays. */
  lemma LineGrows(pass: nat, s: State, l: Line)
    requires |s.out| <= OUT_MAX
    ensures var t := LineStep(pass, s, l);
      && |t.out| == Min(|s.out| + LineSize(s.sec, l, CountIn(s.labels, l)), OUT_MAX)
      && s.out <= t.out && t.sec == SecAfter(s.sec, l)
  {
    hide CurVma, Defined;
    if !l.Section? && !l.Label? {
      hide LineStep, LineSize, CountIn;
      LineWrote(pass, s, l);
    }
  }

  lemma LinesStep(pass: nat, s: State, ls: seq<Line>, k: nat)
    requires k < |ls|
    ensures Lines(pass, s, ls[..k + 1]) == LineStep(pass, Lines(pass, s, ls[..k]), ls[k])
  {
    hide LineStep;
    assert ls[..k + 1][..k] == ls[..k];
  }

  /** Every pass goes through the same sections and stays inside the buffer. */
  lemma {:induction false} Sections(pass: nat, s: State, ls: seq<Line>, k: nat)
    requires k <= |ls| && s.out == [] && s.sec.Text?
    ensures var t := Lines(pass, s, ls[..k]); |t.out| <= OUT_MAX && t.sec == SecAt(ls, k)
  {
    hide LineStep, LineSize, CountIn;
    if k > 0 {
      Sections(pass, s, ls, k - 1);
      LinesStep(pass, s, ls, k - 1);
      LineGrows(pass, Lines(pass, s, ls[..k - 1]), ls[k - 1]);
    }
  }

  /** What is written stays written. */
  lemma {:induction false} Kept(pass: nat, s: State, ls: seq<Line>, j: nat, k: nat)
    requires j <= k <= |ls| && s.out == [] && s.sec.Text?
    ensures Lines(pass, s, ls[..j]).out <= Lines(pass, s, ls[..k]).out
    decreases k
  {
    hide LineStep, LineSize, CountIn;
    if j < k {
      Kept(pass, s, ls, j, k - 1);
      Sections(pass, s, ls, k - 1);
      LinesStep(pass, s, ls, k - 1);
      LineGrows(pass, Lines(pass, s, ls[..k - 1]), ls[k - 1]);
    }
  }

  // ---- what a line leaves alone ----

  /** At most one fixup more, for a name the table does not have. */
  ghost predicate MoreFixups(s: State, t: State) {
    || t.fixups == s.fixups
    || (|t.fixups| == |s.fixups| + 1 && t.fixups[..|s.fixups|] == s.fixups
        && Find(s.labels, t.fixups[|s.fixups|].name, 0) < 0)
  }

  lemma EmitFrame(s: State, b: seq<byte>)
    ensures Emit(s, b) == s.(out := Emit(s, b).out)
  {
  }

  lemma FixupFrame(s: State, f: Fixup)
    requires Find(s.labels, f.name, 0) < 0
    ensures var t := WithFixup(s, f); t == s.(fixups := t.fixups) && MoreFixups(s, t)
  {
  }

  /** Lines that are neither labels nor sections change the bytes written, the fixups and the space of .bss. */
  lemma LineFrame(pass: nat, s: State, l: Line)
    requires !l.Section? && !l.Label?
    ensures var t := LineStep(pass, s, l);
      && t == s.(out := t.out, fixups := t.fixups,
                 bssSize := s.bssSize + if l.Resb? && s.sec.Bss? then ValueOf(s.labels, l.count) else 0)
      && MoreFixups(s, t)
  {
    hide Emit, ItemsBytes, Encode, Word, CurVma, AddrOf, Find, WithFixup, Repeat, BranchStep;
    match l
    case Db(items) => EmitFrame(s, ItemsBytes(s.labels, items));
    case Dw(e) => var v: int := ValueOf(s.labels, e); EmitFrame(s, [v % 256, v / 256 % 256]);
    case Dd(e) =>
      var late := e.Named? && Find(s.labels, e.name, 0) < 0 && pass == 2;
      if late { FixupFrame(s, Fixup(|s.out|, e.name, 0, false)); }
      EmitFrame(if late then WithFixup(s, Fixup(|s.out|, e.name, 0, false)) else s, Word(ValueOf(s.labels, e)));
    case Times(c, e) => EmitFrame(s, Repeat(ValueOf(s.labels, c), ValueOf(s.labels, e) % 256));
    case Resb(c) => EmitFrame(s, Repeat(ValueOf(s.labels, c), 0));
    case Code(i) => EmitFrame(s, Encode(i));
    case PushName(n) => EmitFrame(s, [0x68] + Word(AddrOf(s.labels, n)));
    case MovName(r, n) =>
      var late := Find(s.labels, n, 0) < 0 && pass == 2;
      if late { FixupFrame(s, Fixup(|s.out| + 1, n, 0, false)); }
      EmitFrame(if late then WithFixup(s, Fixup(|s.out| + 1, n, 0, false)) else s,
                [0xB8 + RegCode(r)] + Word(AddrOf(s.labels, n)));
    case Branch(j, target) => BranchFrame(pass, s, JumpOp(j), target);
    case JmpTo(a) =>
      EmitFrame(s, [0xE9]);
      var t := Emit(s, [0xE9]);
      EmitFrame(t, Word(Wrap(a - (CurVma(t) + 4))));
    case _ =>
  }

  lemma BranchFrame(pass: nat, s: State, op: seq<byte>, target: string)
    ensures var t := BranchStep(pass, s, op, target); t == s.(out := t.out, fixups := t.fixups) && MoreFixups(s, t)
  {
    hide Emit, Word, CurVma, AddrOf, Find, WithFixup;
    EmitFrame(s, op);
    var t := Emit(s, op);
    if Find(t.labels, target, 0) >= 0 && pass == 2 {
      EmitFrame(t, Word(Wrap(AddrOf(t.labels, target) - (CurVma(t) + 4))));
    } else {
      var f := Fixup(|t.out|, target, Wrap(CurVma(t) + 4), true);
      if pass == 2 { FixupFrame(t, f); }
      EmitFrame(if pass == 2 then WithFixup(t, f) else t, Word(0));
    }
  }

  /** Only a label line of the first pass touches the label table. */
  lemma LabelsOnly(pass: nat, s: State, l: Line)
    ensures LineStep(pass, s, l).labels
         == if l.Label? && pass == 1 then Defined(s.labels, l.name, CurVma(s)) else s.labels
  {
    hide CurVma, Defined;
    if !l.Section? && !l.Label? {
      hide LineStep;
      LineFrame(pass, s, l);
    }
  }

  /** Only leaving .text or .data changes the size recorded for it; the start of .data stays where it was. */
  lemma SizesStep(s: State, l: Line)
    ensures var t := LineStep(1, s, l);
      && t.dataStart == s.dataStart
      && t.textSize == (if l.Section? && s.sec.Text? && !l.to.Text? then |s.out| else s.textSize)
      && t.dataSize == if l.Section? && s.sec.Data? && l.to.Bss? then Less(|s.out|, s.dataStart) else s.dataSize
  {
    hide CurVma, Defined;
    if !l.Section? && !l.Label? {
      hide LineStep;
      LineFrame(1, s, l);
    }
  }

  // ---- labels ----

  function LabelsIn(ls: seq<Line>): nat {
    if ls == [] then 0 else LabelsIn(ls[..|ls| - 1]) + if ls[|ls| - 1].Label? then 1 else 0
  }

  predicate DistinctLabels(ls: seq<Line>) {
    forall i, j | 0 <= i < j < |ls| && ls[i].Label? && ls[j].Label? :: ls[i].name != ls[j].name
  }

  /** After `k` lines of the first pass the table holds exactly the labels so far, each with the address it had. */
  ghost predicate Tabled(ls: seq<Line>, k: nat, labs: seq<Lab>)
    requires k <= |ls|
  {
    && |labs| == LabelsIn(ls[..k])
    && (forall i | 0 <= i < k && ls[i].Label? :: Has(labs, ls[i].name, CurVma(Lines(1, Start1(), ls[..i]))))
    && forall m | 0 <= m < |labs| :: Defines(ls[..k], labs[m].name)
  }

  /** Some line is the label `name`. */
  ghost predicate Defines(ls: seq<Line>, name: string) { Label(name) in ls }

  ghost predicate Has(labs: seq<Lab>, name: string, addr: u32) {
    Find(labs, name, 0) >= 0 && AddrOf(labs, name) == addr
  }

  lemma {:induction false} FindMore(labs: seq<Lab>, l: Lab, n: string, i: nat)
    requires i <= |labs|
    ensures Find(labs + [l], n, i) == if Find(labs, n, i) >= 0 then Find(labs, n, i) else if l.name == n then |labs|
        else -1
    decreases |labs| - i
  {
    if i < |labs| { FindMore(labs, l, n, i + 1); }
  }

  lemma HasMore(labs: seq<Lab>, l: Lab, n: string, a: u32)
    ensures Has(labs, n, a) ==> Has(labs + [l], n, a)
    ensures Find(labs, l.name, 0) < 0 ==> Has(labs + [l], l.name, l.addr)
  {
    FindMore(labs, l, n, 0);
    FindMore(labs, l, l.name, 0);
  }

  lemma {:induction false} LabelsMonotone(ls: seq<Line>, k: nat)
    requires k <= |ls|
    ensures LabelsIn(ls[..k]) <= LabelsIn(ls)
    decreases |ls|
  {
    if k < |ls| {
      LabelsMonotone(ls[..|ls| - 1], k);
      assert ls[..|ls| - 1][..k] == ls[..k];
    } else {
      assert ls[..k] == ls;
    }
  }

  lemma {:induction false} LabelsTabled(ls: seq<Line>, k: nat)
    requires DistinctLabels(ls) && LabelsIn(ls) <= LABEL_MAX && k <= |ls|
    ensures Tabled(ls, k, Lines(1, Start1(), ls[..k]).labels)
  {
    hide LineStep, CurVma, Has;
    if k > 0 {
      LabelsTabled(ls, k - 1);
      assert ls[..k][..k - 1] == ls[..k - 1];
      var s, l := Lines(1, Start1(), ls[..k - 1]), ls[k - 1];
      LabelsOnly(1, s, l);
      assert Lines(1, Start1(), ls[..k]) == LineStep(1, s, l);
      if l.Label? {
        LabelsMonotone(ls, k);
        NewLabel(ls, k, s.labels, CurVma(s));
      } else {
        SameLabels(ls, k, s.labels);
      }
    } else {
      assert ls[..0] == [];
    }
  }

  lemma SameLabels(ls: seq<Line>, k: nat, labs: seq<Lab>)
    requires 0 < k <= |ls| && !ls[k - 1].Label? && Tabled(ls, k - 1, labs)
    ensures Tabled(ls, k, labs)
  {
    hide CurVma, Lines, Has;
    assert ls[..k][..k - 1] == ls[..k - 1];
    forall m | 0 <= m < |labs|
      ensures Defines(ls[..k], labs[m].name)
    {
      assert Defines(ls[..k - 1], labs[m].name);
    }
  }

  /** A label not seen before goes to the end of the table. */
  lemma NewLabel(ls: seq<Line>, k: nat, labs: seq<Lab>, addr: u32)
    requires DistinctLabels(ls) && 0 < k <= |ls| && ls[k - 1].Label? && |labs| < LABEL_MAX
    requires Tabled(ls, k - 1, labs) && addr == CurVma(Lines(1, Start1(), ls[..k - 1]))
    ensures Tabled(ls, k, Defined(labs, ls[k - 1].name, addr))
  {
    hide CurVma, Lines, Has;
    var n := ls[k - 1].name;
    assert ls[k - 1] == Label(n);
    forall m | 0 <= m < |labs|
      ensures labs[m].name != n
    {
      assert Defines(ls[..k - 1], labs[m].name);
    }
    var more := labs + [Lab(n, addr)];
    assert Defined(labs, n, addr) == more;
    assert ls[..k][..k - 1] == ls[..k - 1];
    forall i | 0 <= i < k && ls[i].Label?
      ensures Has(more, ls[i].name, CurVma(Lines(1, Start1(), ls[..i])))
    {
      HasMore(labs, Lab(n, addr), ls[i].name, CurVma(Lines(1, Start1(), ls[..i])));
    }
    forall m | 0 <= m < |more|
      ensures Defines(ls[..k], more[m].name)
    {
      if m < |labs| { assert Defines(ls[..k - 1], labs[m].name); }
    }
  }

  /** The label table of the second pass is the one the first pass has left. */
  lemma {:induction false} LabelsKept(s: State, ls: seq<Line>)
    ensures Lines(2, s, ls).labels == s.labels
  {
    hide LineStep;
    if ls != [] {
      LabelsKept(s, ls[..|ls| - 1]);
      LabelsOnly(2, Lines(2, s, ls[..|ls| - 1]), ls[|ls| - 1]);
    }
  }

  // ---- where lines start ----

  function NamesOf(labs: seq<Lab>): (r: seq<string>)
    ensures |r| == |labs|
  {
    seq(|labs|, i requires 0 <= i < |labs| => labs[i].name)
  }

  /** No label has an address below the load address. */
  ghost predicate High(labs: seq<Lab>) {
    forall i | 0 <= i < |labs| :: labs[i].addr >= VMA
  }

  lemma NoneHigh()
    ensures High([])
  {
  }

  lemma NamesFound(labs: seq<Lab>, n: string)
    ensures n in NamesOf(labs) <==> Find(labs, n, 0) >= 0
  {
    var k := Find(labs, n, 0);
    assert k >= 0 ==> NamesOf(labs)[k] == n;
  }

  /** Defining a label keeps addresses high and adds at most its name. */
  lemma DefinedNames(labs: seq<Lab>, n: string, a: u32)
    requires High(labs) && a >= VMA
    ensures High(Defined(labs, n, a))
    ensures NamesOf(Defined(labs, n, a))
         == if n !in NamesOf(labs) && |labs| < LABEL_MAX then NamesOf(labs) + [n] else NamesOf(labs)
  {
    NamesFound(labs, n);
    var more := Defined(labs, n, a);
    if Find(labs, n, 0) >= 0 || |labs| >= LABEL_MAX {
      assert NamesOf(more) == NamesOf(labs);
    } else {
      assert NamesOf(more) == NamesOf(labs) + [n];
    }
  }

  /** Up to the end of the buffer it does not matter which address a known name stands for. */
  lemma CountsAlike(labs: seq<Lab>, l: Line, sec: Sec, x: nat)
    requires High(labs)
    ensures Min(x + LineSize(sec, l, CountIn(labs, l)), OUT_MAX)
         == Min(x + LineSize(sec, l, CountOf(NamesOf(labs), l)), OUT_MAX)
  {
    hide NamesOf, Find, ItemsSize, Encode;
    if (l.Times? || l.Resb?) && l.count.Named? {
      NamesFound(labs, l.count.name);
      AddressHigh(labs, l.count.name);
    }
  }

  lemma AddressHigh(labs: seq<Lab>, n: string)
    requires High(labs)
    ensures Find(labs, n, 0) >= 0 ==> AddrOf(labs, n) >= VMA
    ensures Find(labs, n, 0) < 0 ==> AddrOf(labs, n) == 0
  {
  }

  /** What the first pass keeps. */
  ghost predicate Bounded(s: State) {
    |s.out| <= OUT_MAX && s.textSize <= OUT_MAX && s.dataSize <= OUT_MAX && s.dataStart == 0 && High(s.labels)
  }

  lemma VmaHigh(s: State)
    requires Bounded(s)
    ensures CurVma(s) >= VMA
  {
    hide High;
  }

  /** The first pass starts each line at the sum of the sizes before it, in the section the source says, with the
      table of the labels before it. */
  lemma {:induction false} FirstStart(ls: seq<Line>, k: nat)
    requires k <= |ls|
    ensures var s := Lines(1, Start1(), ls[..k]);
      && Bounded(s) && NamesOf(s.labels) == Known(ls[..k])
      && |s.out| == Min(Start(ls, k), OUT_MAX) && s.sec == SecAt(ls, k)
  {
    hide LineStep, LineSize, CountIn, CountOf, CurVma, Defined, High;
    if k == 0 {
      assert ls[..0] == [];
      NoneHigh();
    } else {
      FirstStart(ls, k - 1);
      var s, l := Lines(1, Start1(), ls[..k - 1]), ls[k - 1];
      LinesStep(1, Start1(), ls, k - 1);
      LineGrows(1, s, l);
      CountsAlike(s.labels, l, s.sec, |s.out|);
      MinSum(|s.out|, Start(ls, k - 1), LineSize(s.sec, l, CountOf(NamesOf(s.labels), l)));
      SizesStep(s, l);
      LabelsOnly(1, s, l);
      VmaHigh(s);
      if l.Label? { DefinedNames(s.labels, l.name, CurVma(s)); }
      assert ls[..k][..k - 1] == ls[..k - 1];
    }
  }

  lemma MinSum(a: nat, b: nat, x: nat)
    requires a == Min(b, OUT_MAX)
    ensures Min(a + x, OUT_MAX) == Min(b + x, OUT_MAX)
  {
  }

  /** So does the second, with all labels known. */
  lemma {:induction false} SecondStart(ls: seq<Line>, k: nat)
    requires k <= |ls|
    ensures var s := Lines(2, Start2(Pass1(ls)), ls[..k]);
            |s.out| == Min(StartAgain(ls, k), OUT_MAX) && s.sec == SecAt(ls, k)
  {
    hide LineStep, LineSize, CountIn, CountOf, Known;
    if k > 0 {
      SecondStart(ls, k - 1);
      var t := Start2(Pass1(ls));
      var s, l := Lines(2, t, ls[..k - 1]), ls[k - 1];
      FirstStart(ls, |ls|);
      assert ls[..|ls|] == ls;
      LabelsKept(t, ls[..k - 1]);
      LinesStep(2, t, ls, k - 1);
      LineGrows(2, s, l);
      CountsAlike(s.labels, l, s.sec, |s.out|);
      MinSum(|s.out|, StartAgain(ls, k - 1), LineSize(s.sec, l, CountOf(NamesOf(s.labels), l)));
    }
  }

  // ---- when the passes agree ----

  /** Line `k` puts as many bytes as a label says that is met only behind it. */
  predicate Late(ls: seq<Line>, k: nat)
    requires k < |ls|
  {
    && (ls[k].Times? || (ls[k].Resb? && !SecAt(ls, k).Bss?))
    && ls[k].count.Named? && ls[k].count.name in Known(ls) && ls[k].count.name !in Known(ls[..k])
  }

  /** No line is late, unless the buffer is full there already. */
  predicate Steady(ls: seq<Line>) {
    forall k | 0 <= k < |ls| && Late(ls, k) :: Start(ls, k) >= OUT_MAX
  }

  /** Both passes start line `k` at the same offset. */
  ghost predicate Alike(ls: seq<Line>, k: nat)
    requires k <= |ls|
  {
    |Lines(2, Start2(Pass1(ls)), ls[..k]).out| == |Lines(1, Start1(), ls[..k]).out|
  }

  lemma {:induction false} KnownGrows(ls: seq<Line>, k: nat)
    requires k <= |ls|
    ensures forall n | n in Known(ls[..k]) :: n in Known(ls)
    decreases |ls|
  {
    if k < |ls| {
      KnownGrows(ls[..|ls| - 1], k);
      assert ls[..|ls| - 1][..k] == ls[..k];
    } else {
      assert ls[..k] == ls;
    }
  }

  lemma {:induction false} StartsAlike(ls: seq<Line>, k: nat)
    requires Steady(ls) && k <= |ls|
    ensures Min(StartAgain(ls, k), OUT_MAX) == Min(Start(ls, k), OUT_MAX)
  {
    hide LineSize, Known, Late;
    if k > 0 {
      StartsAlike(ls, k - 1);
      if !Late(ls, k - 1) { SameCount(ls, k - 1); }
    }
  }

  lemma SameCount(ls: seq<Line>, k: nat)
    requires k < |ls| && !Late(ls, k)
    ensures LineSize(SecAt(ls, k), ls[k], CountOf(Known(ls[..k]), ls[k]))
         == LineSize(SecAt(ls, k), ls[k], CountOf(Known(ls), ls[k]))
  {
    hide Known, SecAt, ItemsSize, Encode;
    KnownGrows(ls, k);
  }

  /** A late line before the end of the buffer takes nothing in the first pass and all the rest in the second. */
  lemma LateDiffers(ls: seq<Line>, k: nat)
    requires k < |ls| && Late(ls, k) && Start(ls, k) < OUT_MAX
    ensures |Lines(1, Start1(), ls[..k + 1]).out| < 16384 == |Lines(2, Start2(Pass1(ls)), ls[..k + 1]).out|
  {
    hide Lines, Known, SecAt;
    FirstStart(ls, k + 1);
    SecondStart(ls, k + 1);
  }

  /** The layout theorem: for every source, both passes start every line alike exactly if no line in front of the end
      of the buffer counts with a label that comes behind it. */
  lemma PassesAgree(ls: seq<Line>)
    ensures Steady(ls) <==> forall k | 0 <= k <= |ls| :: Alike(ls, k)
  {
    hide Lines, Late, Start, StartAgain;
    if Steady(ls) {
      forall k | 0 <= k <= |ls|
        ensures Alike(ls, k)
      {
        FirstStart(ls, k);
        SecondStart(ls, k);
        StartsAlike(ls, k);
      }
    } else {
      var k :| 0 <= k < |ls| && Late(ls, k) && Start(ls, k) < OUT_MAX;
      LateDiffers(ls, k);
      assert !Alike(ls, k + 1);
    }
  }

  /** The smallest such source. */
  lemma NamedCountDiffers(x: string, e: Expr)
    ensures var ls := [Times(Named(x), e), Label(x)]; !Steady(ls) && !Alike(ls, 1)
  {
    var ls := [Times(Named(x), e), Label(x)];
    assert ls[..1] == [Times(Named(x), e)] && ls[..0] == [];
    assert Known(ls[..1]) == [] by { assert ls[..1][..0] == []; }
    assert Late(ls, 0) && Start(ls, 0) == 0;
    LateDiffers(ls, 0);
  }

  // ---- branches ----

  function RelAt(out: seq<byte>, p: nat): u32
    requires p + 4 <= |out|
  {
    Le32(out, p)
  }

  lemma WordBack(out: seq<byte>, p: nat, v: u32)
    requires p + 4 <= |out| && out[p..p + 4] == Word(v)
    ensures RelAt(out, p) == v
  {
    hide Byte, Le32;
    assert out[p] == Word(v)[0] && out[p + 1] == Word(v)[1] && out[p + 2] == Word(v)[2] && out[p + 3] == Word(v)[3];
    WordAt(out, p, v);
  }

  /** The bytes of a branch to a known label, in the second pass. */
  lemma BranchBytes(s: State, op: seq<byte>, target: string)
    requires Find(s.labels, target, 0) >= 0 && s.sec.Text? && |s.out| + |op| + 4 <= OUT_MAX
    ensures var v := Wrap(AddrOf(s.labels, target) - (Wrap(VMA + |s.out| + |op|) + 4));
      BranchStep(2, s, op, target).out == s.out + op + Word(v)
  {
    hide Emit, Word, AddrOf;
    EmitGrows(s, op);
    var t := Emit(s, op);
    EmitGrows(t, Word(Wrap(AddrOf(t.labels, target) - (CurVma(t) + 4))));
  }

  /** The branch theorem: in a source that both passes lay out alike, with distinct labels and within the limits of
      table and buffer, every jump, call or conditional jump in .text to a label in .text, decoded from the bytes of the
      finished program, lands on the byte behind that label. */
  lemma BranchLands(ls: seq<Line>, k: nat, j: nat)
    requires Steady(ls) && DistinctLabels(ls) && LabelsIn(ls) <= LABEL_MAX && Start(ls, |ls|) <= OUT_MAX
    requires k < |ls| && j < |ls| && ls[k].Branch? && ls[j] == Label(ls[k].target) && SecAt(ls, k).Text?
    requires SecAt(ls, j).Text?
    ensures var out, p, op := Pass2(ls).out, Start(ls, k), JumpOp(ls[k].jump);
      && p + |op| + 4 <= |out| && out[p..p + |op|] == op
      && Wrap(p + |op| + 4 + RelAt(out, p + |op|)) == Start(ls, j + 1)
  {
    hide LineStep, Lines, Start, StartAgain, LineSize, SecAt, RelAt, Word, Find, CurVma, AddrOf, BranchStep, Known;
    hide Steady, LabelsIn, DistinctLabels;
    var s := Start2(Pass1(ls));
    var p, op := Start(ls, k), JumpOp(ls[k].jump);
    StartMonotone(ls, k + 1, |ls|);
    StartMonotone(ls, j, |ls|);
    StartStep(ls, k);
    StartStep(ls, j);
    SecondStart(ls, k);
    StartsAlike(ls, k);
    Kept(2, s, ls, k + 1, |ls|);
    assert ls[..|ls|] == ls;
    LabelAddress(ls, j);
    LabelsKept(s, ls[..k]);
    var t := Lines(2, s, ls[..k]);
    LinesStep(2, s, ls, k);
    BranchLine(t, ls[k].jump, ls[k].target);
    BranchBytes(t, op, ls[k].target);
    var v := Wrap(Wrap(VMA + Start(ls, j)) - (Wrap(VMA + p + |op|) + 4));
    BranchInOut(t.out, op, v, Lines(2, s, ls).out);
    LandsOn(p + |op|, Start(ls, j), v);
  }

  lemma BranchLine(s: State, j: Jump, target: string)
    ensures LineStep(2, s, Branch(j, target)) == BranchStep(2, s, JumpOp(j), target)
  {
    hide BranchStep;
  }

  lemma StartStep(ls: seq<Line>, k: nat)
    requires k < |ls|
    ensures Start(ls, k + 1) == Start(ls, k) + LineSize(SecAt(ls, k), ls[k], CountOf(Known(ls[..k]), ls[k]))
    ensures ls[k].Label? ==> Start(ls, k + 1) == Start(ls, k)
    ensures ls[k].Branch? ==> Start(ls, k + 1) == Start(ls, k) + |JumpOp(ls[k].jump)| + 4
  {
  }

  lemma {:induction false} StartMonotone(ls: seq<Line>, j: nat, k: nat)
    requires j <= k <= |ls|
    ensures Start(ls, j) <= Start(ls, k)
    decreases k
  {
    hide LineSize;
    if j < k { StartMonotone(ls, j, k - 1); }
  }

  /** The address of a .text label in the table the second pass uses. */
  lemma LabelAddress(ls: seq<Line>, j: nat)
    requires DistinctLabels(ls) && LabelsIn(ls) <= LABEL_MAX && j < |ls| && ls[j].Label? && Start(ls, j) <= OUT_MAX
    ensures var labs := Pass1(ls).labels;
      && Find(labs, ls[j].name, 0) >= 0
      && AddrOf(labs, ls[j].name) == CurVma(Lines(1, Start1(), ls[..j]))
      && (SecAt(ls, j).Text? ==> AddrOf(labs, ls[j].name) == Wrap(0x80_0000 + Start(ls, j)))
  {
    hide Lines, Find, Known, AddrOf, CurVma, Start, SecAt, LabelsIn, DistinctLabels, High, Wrap;
    LabelsTabled(ls, |ls|);
    assert ls[..|ls|] == ls;
    var s := Lines(1, Start1(), ls[..j]);
    assert Has(Lines(1, Start1(), ls).labels, ls[j].name, CurVma(s));
    FirstStart(ls, j);
    TextVma(s);
  }

  lemma TextVma(s: State)
    ensures s.sec.Text? ==> CurVma(s) == Wrap(VMA + |s.out|)
  {
  }

  lemma BranchInOut(before: seq<byte>, op: seq<byte>, v: u32, out: seq<byte>)
    requires before + op + Word(v) <= out
    ensures var p := |before|;
      p + |op| + 4 <= |out| && out[p..p + |op|] == op && RelAt(out, p + |op|) == v
  {
    hide Word, RelAt;
    var p, all := |before|, before + op + Word(v);
    assert out[..|all|] == all;
    assert out[p..p + |op|] == all[p..p + |op|] == op;
    assert out[p + |op|..p + |op| + 4] == all[p + |op|..p + |op| + 4] == Word(v);
    WordBack(out, p + |op|, v);
  }

  lemma LandsOn(q: nat, target: nat, v: u32)
    requires q <= OUT_MAX && target <= OUT_MAX && v == Wrap(Wrap(VMA + target) - (Wrap(VMA + q) + 4))
    ensures Wrap(q + 4 + v) == target
  {
  }

  // ---- fixups ----

  /** Fixups are made only for names the table does not have. */
  ghost predicate Vain(s: State) {
    forall i | 0 <= i < |s.fixups| :: Find(s.labels, s.fixups[i].name, 0) < 0
  }

  lemma FixupsVain(s: State, l: Line)
    requires Vain(s)
    ensures Vain(LineStep(2, s, l))
  {
    hide Find, CurVma;
    if !l.Section? && !l.Label? {
      hide LineStep;
      LineFrame(2, s, l);
      var t := LineStep(2, s, l);
      forall i | 0 <= i < |t.fixups|
        ensures Find(t.labels, t.fixups[i].name, 0) < 0
      {
        if i < |s.fixups| { assert t.fixups[i] == s.fixups[i]; }
      }
    }
  }

  /** All fixups left by the second pass are in vain: each names an undefined label, so applying them patches
      nothing. */
  lemma {:induction false} AllFixupsVain(s: State, ls: seq<Line>)
    requires s.fixups == []
    ensures Vain(Lines(2, s, ls))
  {
    hide LineStep;
    if ls != [] {
      AllFixupsVain(s, ls[..|ls| - 1]);
      FixupsVain(Lines(2, s, ls[..|ls| - 1]), ls[|ls| - 1]);
    }
  }

  // ---- .data and .bss ----

  /** Where the last stretch of .text before line `k` ended. */
  ghost function TextEnd(ls: seq<Line>, k: nat): nat
    requires k <= |ls|
  {
    if k == 0 then 0
    else if ls[k - 1].Section? && SecAt(ls, k - 1).Text? && !ls[k - 1].to.Text? then Start(ls, k - 1)
    else TextEnd(ls, k - 1)
  }

  lemma {:induction false} SizesAt(ls: seq<Line>, k: nat)
    requires k <= |ls|
    ensures var s := Lines(1, Start1(), ls[..k]); s.textSize == Min(TextEnd(ls, k), OUT_MAX) && s.dataStart == 0
  {
    hide LineStep, High, Known;
    hide NamesOf, LineSize, CountOf, CurVma;
    if k > 0 {
      SizesAt(ls, k - 1);
      assert ls[..k][..k - 1] == ls[..k - 1];
      SizesStep(Lines(1, Start1(), ls[..k - 1]), ls[k - 1]);
      FirstStart(ls, k - 1);
    }
  }

  /** The program is loaded as one piece at VMA. A label in .data has, in the table the second pass uses, the address
      of the byte behind it exactly if the last stretch of .text before it ended at offset 0: the first pass counts
      the text twice. */
  lemma DataLabelRight(ls: seq<Line>, j: nat)
    requires Steady(ls) && DistinctLabels(ls) && LabelsIn(ls) <= LABEL_MAX && j < |ls| && ls[j].Label?
    requires SecAt(ls, j).Data? && Start(ls, j) <= OUT_MAX
    ensures AddrOf(Pass1(ls).labels, ls[j].name) == Wrap(VMA + Start(ls, j + 1)) <==> TextEnd(ls, j) == 0
  {
    hide LineStep, LineSize, Lines, AddrOf, CurVma, Find, Start;
    LabelAddress(ls, j);
    FirstStart(ls, j);
    SizesAt(ls, j);
    StartStep(ls, j);
    DataAddress(Lines(1, Start1(), ls[..j]));
  }

  lemma DataAddress(s: State)
    requires s.sec.Data? && s.dataStart == 0 && s.textSize <= OUT_MAX && |s.out| <= OUT_MAX
    ensures CurVma(s) == Wrap(VMA + |s.out|) <==> s.textSize == 0
  {
  }

  /** In the table a .data label has its offset counted from the text rounded up to a multiple of four. */
  lemma DataLabelAddress(ls: seq<Line>, j: nat)
    requires DistinctLabels(ls) && LabelsIn(ls) <= LABEL_MAX && j < |ls| && ls[j].Label?
    requires SecAt(ls, j).Data? && Start(ls, j) <= OUT_MAX
    ensures var base := AddrOf(Pass1(ls).labels, ls[j].name) - Start(ls, j);
      base % 4 == 0 && VMA + Min(TextEnd(ls, j), OUT_MAX) <= base < VMA + Min(TextEnd(ls, j), OUT_MAX) + 4
  {
    hide LineStep, LineSize, Lines, AddrOf, CurVma, Find, Start, Known, NamesOf, High, LabelsIn, DistinctLabels,
         TextEnd, SecAt, Wrap;
    LabelAddress(ls, j);
    FirstStart(ls, j);
    SizesAt(ls, j);
    DataPlace(Lines(1, Start1(), ls[..j]));
  }

  lemma DataPlace(s: State)
    requires s.sec.Data? && s.dataStart == 0 && s.textSize <= OUT_MAX && |s.out| <= OUT_MAX
    ensures var base := CurVma(s) - |s.out|; base % 4 == 0 && VMA + s.textSize <= base < VMA + s.textSize + 4
  {
  }

  // ---- the entry point ----

  /** The program is entered at `_start`, or at its first label when there is no such label. */
  lemma EntryPoint(ls: seq<Line>, j: nat)
    requires DistinctLabels(ls) && j < |ls| && ls[j].Label?
    requires ls[j].name == "_start"
      || (forall i | 0 <= i < |ls| && ls[i].Label? :: ls[i].name != "_start" && j <= i)
    ensures Pass1(ls).entry == CurVma(Lines(1, Start1(), ls[..j]))
    ensures SecAt(ls, j).Text? && Start(ls, j) <= OUT_MAX ==> Pass1(ls).entry == VMA + Start(ls, j)
  {
    hide CurVma, Lines;
    EntryAt(ls, j, |ls|);
    assert ls[..|ls|] == ls;
    FirstStart(ls, j);
    TextPlace(Lines(1, Start1(), ls[..j]));
  }

  lemma TextPlace(s: State)
    ensures s.sec.Text? && |s.out| <= OUT_MAX ==> CurVma(s) == VMA + |s.out|
  {
  }

  lemma {:induction false} EntryAt(ls: seq<Line>, j: nat, k: nat)
    requires DistinctLabels(ls) && j < |ls| && ls[j].Label? && k <= |ls|
    requires ls[j].name == "_start"
      || (forall i | 0 <= i < |ls| && ls[i].Label? :: ls[i].name != "_start" && j <= i)
    ensures var s := Lines(1, Start1(), ls[..k]);
      && (k > j ==> s.entrySet && s.entry == CurVma(Lines(1, Start1(), ls[..j])))
      && (ls[j].name != "_start" && k <= j ==> !s.entrySet)
  {
    hide LineStep, CurVma, Lines;
    if k > 0 {
      EntryAt(ls, j, k - 1);
      LinesStep(1, Start1(), ls, k - 1);
      EntryStep(Lines(1, Start1(), ls[..k - 1]), ls[k - 1]);
    } else {
      NothingYet(ls);
    }
  }

  lemma NothingYet(ls: seq<Line>)
    ensures !Lines(1, Start1(), ls[..0]).entrySet
  {
  }

  lemma EntryStep(s: State, l: Line)
    ensures var t := LineStep(1, s, l);
      if l.Label? && (l.name == "_start" || !s.entrySet) then t.entrySet && t.entry == CurVma(s)
      else t.entrySet == s.entrySet && t.entry == s.entry
  {
    hide CurVma, Defined;
    if !l.Section? && !l.Label? {
      hide LineStep;
      LineFrame(1, s, l);
    }
  }

  ghost function Reserved(ls: seq<Line>): nat {
    if ls == [] then 0
    else
      var k := |ls| - 1;
      Reserved(ls[..k]) + if ls[k].Resb? && ls[k].count.Number? && SecAt(ls, k).Bss? then ls[k].count.v else 0
  }

  /** No count in .bss is a label. */
  predicate NumericBss(ls: seq<Line>) {
    forall k | 0 <= k < |ls| && ls[k].Resb? && SecAt(ls, k).Bss? :: ls[k].count.Number?
  }

  lemma BssStep(pass: nat, s: State, l: Line)
    requires l.Resb? && s.sec.Bss? ==> l.count.Number?
    ensures LineStep(pass, s, l).bssSize == s.bssSize + if l.Resb? && s.sec.Bss? then l.count.v else 0
  {
    hide CurVma, Defined;
    if !l.Section? && !l.Label? {
      hide LineStep;
      LineFrame(pass, s, l);
    }
  }

  lemma {:induction false} BssOfPass(pass: nat, s: State, ls: seq<Line>)
    requires NumericBss(ls) && s.out == [] && s.sec.Text?
    ensures Lines(pass, s, ls).bssSize == s.bssSize + Reserved(ls)
  {
    hide LineStep;
    if ls != [] {
      var k := |ls| - 1;
      forall j | 0 <= j <= k
        ensures SecAt(ls[..k], j) == SecAt(ls, j)
      {
        SecPrefix(ls, k, j);
      }
      BssOfPass(pass, s, ls[..k]);
      Sections(pass, s, ls, k);
      BssStep(pass, Lines(pass, s, ls[..k]), ls[k]);
    }
  }

  lemma {:induction false} SecPrefix(ls: seq<Line>, m: nat, k: nat)
    requires k <= m <= |ls|
    ensures SecAt(ls[..m], k) == SecAt(ls, k)
  {
    if k > 0 { SecPrefix(ls, m, k - 1); }
  }

  /** The second pass does not start .bss afresh: twice the space asked for is reserved. */
  lemma BssDoubled(ls: seq<Line>)
    requires NumericBss(ls)
    ensures Pass2(ls).bssSize == 2 * Reserved(ls)
  {
    hide Lines, LineStep;
    BssOfPass(1, Start1(), ls);
    BssOfPass(2, Start2(Pass1(ls)), ls);
  }
}
