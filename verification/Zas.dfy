/** The assembler itself: an output buffer with a position, a label table, two passes over the lines, fixups. */
module Zas {
  import opened Bytes
  import opened ZasLines
  import opened ZasLayout

  class Assembler {
    const out: array<byte>
    var outPos: nat
    var labels: seq<Lab>
    var fixups: seq<Fixup>
    var sec: Sec
    var textSize: nat
    var dataSize: nat
    var bssSize: nat
    var dataStart: nat
    var entry: u32
    var entrySet: bool

    constructor ()
      ensures Valid() && Now() == Start1() && fresh(out)
    {
      out := new byte[OUT_MAX](_ => 0);
      outPos, labels, fixups, sec := 0, [], [], Text;
      textSize, dataSize, bssSize, dataStart, entry, entrySet := 0, 0, 0, 0, VMA, false;
    }

    ghost predicate Valid()
      reads this
    {
      out.Length == OUT_MAX && outPos <= OUT_MAX
    }

    ghost function Now(): State
      requires Valid()
      reads this, out
    {
      State(out[..outPos], labels, fixups, sec, textSize, dataSize, bssSize, dataStart, entry, entrySet)
    }

    method Emit8(b: byte)
      requires Valid()
      modifies `outPos, out
      ensures Valid() && Now() == Emit(old(Now()), [b])
    {
      if outPos < OUT_MAX {
        out[outPos] := b;
        outPos := outPos + 1;
      }
    }

    method EmitAll(bytes: seq<byte>)
      requires Valid()
      modifies `outPos, out
      ensures Valid() && Now() == Emit(old(Now()), bytes)
    {
      hide Emit;
      ghost var s := Now();
      EmitNone(s);
      assert bytes[..0] == [];
      var i := 0;
      while i < |bytes|
        invariant 0 <= i <= |bytes| && Valid() && Now() == Emit(s, bytes[..i])
      {
        Emit8(bytes[i]);
        EmitTwice(s, bytes[..i], [bytes[i]]);
        assert bytes[..i] + [bytes[i]] == bytes[..i + 1];
        i := i + 1;
      }
      assert bytes[..i] == bytes;
    }

    method Emit32(v: u32)
      requires Valid()
      modifies `outPos, out
      ensures Valid() && Now() == Emit(old(Now()), Word(v))
    {
      EmitAll(Word(v));
    }

    method LabelFind(name: string) returns (k: int)
      ensures k == Find(labels, name, 0)
    {
      k := 0;
      while k < |labels|
        invariant 0 <= k <= |labels| && Find(labels, name, 0) == Find(labels, name, k)
      {
        if labels[k].name == name {
          return;
        }
        k := k + 1;
      }
      k := -1;
    }

    method LabelDefine(name: string, addr: u32)
      modifies `labels
      ensures labels == Defined(old(labels), name, addr)
    {
      var k := LabelFind(name);
      if k >= 0 {
        labels := labels[k := Lab(name, addr)];
      } else if |labels| < LABEL_MAX {
        labels := labels + [Lab(name, addr)];
      }
    }

    method AddFixup(f: Fixup)
      modifies `fixups
      ensures fixups == if |old(fixups)| >= FIXUP_MAX then old(fixups) else old(fixups) + [f]
    {
      if |fixups| < FIXUP_MAX {
        fixups := fixups + [f];
      }
    }

    method Vma() returns (a: u32)
      requires Valid()
      ensures a == CurVma(Now())
    {
      if sec.Text? {
        return Wrap(VMA + outPos);
      }
      if sec.Data? {
        return Wrap(Align4(VMA + textSize) + outPos - dataStart);
      }
      a := Wrap(Align4(VMA + textSize) + dataSize);
    }

    method ParseExpr(e: Expr) returns (v: u32, known: bool)
      ensures v == ValueOf(labels, e) && known == (e.Number? || Find(labels, e.name, 0) >= 0)
    {
      if e.Number? {
        return e.v, true;
      }
      var k := LabelFind(e.name);
      if k >= 0 {
        return labels[k].addr, true;
      }
      v, known := 0, false;
    }

    method AssembleBranch(pass: nat, opcode: seq<byte>, target: string)
      requires Valid()
      modifies `outPos, `fixups, out
      ensures Valid() && Now() == BranchStep(pass, old(Now()), opcode, target)
    {
      hide Emit, CurVma, Word;
      ghost var s := Now();
      EmitKeeps(s, opcode);
      var k := LabelFind(target);
      var addr: int := if k >= 0 then labels[k].addr else 0;
      EmitAll(opcode);
      var here := Vma();
      var at: int := here;
      if k >= 0 && pass == 2 {
        Emit32(Wrap(addr - (at + 4)));
      } else {
        if pass == 2 {
          AddFixup(Fixup(outPos, target, Wrap(at + 4), true));
        }
        Emit32(0);
      }
    }

    method AssembleDb(items: seq<Item>)
      requires Valid()
      modifies `outPos, out
      ensures Valid() && Now() == Emit(old(Now()), ItemsBytes(labels, items))
    {
      hide Emit, ItemBytes;
      ghost var s := Now();
      EmitNone(s);
      ghost var done: seq<byte> := [];
      assert items[0..] == items && done + ItemsBytes(labels, items) == ItemsBytes(labels, items);
      var i := 0;
      while i < |items|
        invariant 0 <= i <= |items| && Valid() && Now() == Emit(s, done)
        invariant done + ItemsBytes(labels, items[i..]) == ItemsBytes(labels, items)
      {
        ghost var b := ItemBytes(labels, items[i]);
        EmitItem(items[i]);
        EmitTwice(s, done, b);
        assert items[i..][1..] == items[i + 1..];
        assert done + (b + ItemsBytes(labels, items[i + 1..])) == done + b + ItemsBytes(labels, items[i + 1..]);
        done := done + b;
        i := i + 1;
      }
      assert done + [] == done;
    }

    method EmitItem(i: Item)
      requires Valid()
      modifies `outPos, out
      ensures Valid() && Now() == Emit(old(Now()), ItemBytes(labels, i))
    {
      hide Emit;
      if i.Chars? {
        EmitAll(i.bytes);
      } else {
        var v, known := ParseExpr(i.e);
        Emit8(v % 256);
      }
    }

    method EmitMany(n: nat, b: byte)
      requires Valid()
      modifies `outPos, out
      ensures Valid() && Now() == Emit(old(Now()), Repeat(n, b))
    {
      hide Emit;
      ghost var s := Now();
      EmitNone(s);
      assert Repeat(0, b) == [];
      var i := 0;
      while i < n
        invariant 0 <= i <= n && Valid() && Now() == Emit(s, Repeat(i, b))
      {
        Emit8(b);
        EmitTwice(s, Repeat(i, b), [b]);
        assert Repeat(i, b) + [b] == Repeat(i + 1, b);
        i := i + 1;
      }
    }

    /** Sections, labels and the entry point. */
    method AssembleMark(pass: nat, l: Line)
      requires Valid() && (l.Section? || l.Label?)
      modifies `sec, `textSize, `dataSize, `labels, `entry, `entrySet
      ensures Valid() && Now() == LineStep(pass, old(Now()), l)
    {
      hide CurVma, Defined;
      match l
      case Section(to) =>
        if pass == 1 && sec.Text? && !to.Text? {
          textSize := outPos;
        } else if pass == 1 && sec.Data? && to.Bss? {
          dataSize := Less(outPos, dataStart);
        }
        sec := to;
      case Label(n) =>
        if pass == 1 {
          var a := Vma();
          LabelDefine(n, a);
          if n == "_start" || !entrySet {
            entry, entrySet := a, true;
          }
        }
    }

    /** Directives that write data or reserve space. */
    method AssembleData(pass: nat, l: Line)
      requires Valid() && (l.Db? || l.Dw? || l.Dd? || l.Times? || l.Resb?)
      modifies `outPos, `fixups, `bssSize, out
      ensures Valid() && Now() == LineStep(pass, old(Now()), l)
    {
      hide Emit, CurVma, Word, ItemsBytes, Encode, Defined, BranchStep, Repeat;
      match l
      case Db(items) => AssembleDb(items);
      case Dw(e) =>
        var v, known := ParseExpr(e);
        var w: int := v;
        EmitAll([w % 256, w / 256 % 256]);
      case Dd(e) =>
        var v, known := ParseExpr(e);
        if !known && pass == 2 {
          AddFixup(Fixup(outPos, e.name, 0, false));
        }
        Emit32(v);
      case Times(c, e) =>
        var n, k1 := ParseExpr(c);
        var v, k2 := ParseExpr(e);
        EmitMany(n, v % 256);
      case Resb(c) =>
        var n, known := ParseExpr(c);
        if sec.Bss? {
          bssSize := bssSize + n;
        } else {
          EmitMany(n, 0);
        }
    }

    method AssembleLine(pass: nat, l: Line)
      requires Valid()
      modifies this, out
      ensures Valid() && Now() == LineStep(pass, old(Now()), l)
    {
      hide Emit, CurVma, Word, ItemsBytes, Encode, Defined, BranchStep, Repeat;
      match l
      case Section(_) => AssembleMark(pass, l);
      case OtherSection =>
      case Global =>
      case Label(_) => AssembleMark(pass, l);
      case Db(_) => AssembleData(pass, l);
      case Dw(_) => AssembleData(pass, l);
      case Dd(_) => AssembleData(pass, l);
      case Times(_, _) => AssembleData(pass, l);
      case Resb(_) => AssembleData(pass, l);
      case Code(i) => EmitAll(Encode(i));
      case PushName(n) =>
        var v, known := ParseExpr(Named(n));
        EmitAll([0x68] + Word(v));
      case MovName(r, n) =>
        var v, known := ParseExpr(Named(n));
        if !known && pass == 2 {
          AddFixup(Fixup(outPos + 1, n, 0, false));
        }
        EmitAll([0xB8 + RegCode(r)] + Word(v));
      case Branch(j, target) => AssembleBranch(pass, JumpOp(j), target);
      case JmpTo(a) =>
        EmitAll([0xE9]);
        var here := Vma();
        var at: int, to: int := here, a;
        Emit32(Wrap(to - (at + 4)));
    }

    /** One pass over all lines, in .text from the start of the buffer. */
    method RunPass(pass: nat, ls: seq<Line>)
      requires Valid() && (pass == 1 ==> Now() == Start1())
      modifies this, out
      ensures Valid()
      ensures Now() == ZasLines.Ended(Lines(pass, if pass == 1 then Start1()
          else old(Now()).(out := [], sec := Text, dataStart := old(textSize)), ls))
    {
      hide LineStep, Lines;
      ghost var s := if pass == 1 then Start1() else Now().(out := [], sec := Text, dataStart := textSize);
      if pass != 1 {
        outPos, dataStart := 0, textSize;
      }
      sec := Text;
      assert Now() == s;
      NoLines(pass, s);
      assert ls[..0] == [];
      var i := 0;
      while i < |ls|
        invariant 0 <= i <= |ls| && Valid() && Now() == Lines(pass, s, ls[..i])
      {
        LinesStep(pass, s, ls, i);
        AssembleLine(pass, ls[i]);
        i := i + 1;
      }
      assert ls[..i] == ls;
      if sec.Text? {
        textSize := outPos;
      } else if sec.Data? {
        dataSize := Less(outPos, dataStart);
      }
    }

    /** Patch the places that referred to labels not known then; in practice there is nothing to patch. */
    method ApplyFixups()
      requires Valid()
      modifies out
      ensures Vain(old(Now())) ==> out[..] == old(out[..])
    {
      ghost var s := Now();
      var i := 0;
      while i < |fixups|
        invariant 0 <= i <= |fixups| && Valid() && labels == s.labels && fixups == s.fixups
        invariant Vain(s) ==> out[..] == old(out[..])
      {
        var f := fixups[i];
        var k := LabelFind(f.name);
        if k >= 0 {
          var v := if f.relative then Wrap(labels[k].addr - f.base) else labels[k].addr;
          if f.at + 4 <= OUT_MAX {
            var w := Word(v);
            out[f.at], out[f.at + 1], out[f.at + 2], out[f.at + 3] := w[0], w[1], w[2], w[3];
          }
        }
        i := i + 1;
      }
    }

    /** Both passes, then the fixups. */
    method Assemble(ls: seq<Line>)
      requires Valid() && Now() == Start1()
      modifies this, out
      ensures Valid() && Now() == Pass2(ls)
    {
      hide Lines;
      RunPass(1, ls);
      fixups := [];
      assert Now() == Pass1(ls).(fixups := []);
      RunPass(2, ls);
      AllFixupsVain(Start2(Pass1(ls)), ls);
      EndedVain(Lines(2, Start2(Pass1(ls)), ls));
      ghost var s, n := Now(), outPos;
      ApplyFixups();
      assert out[..n] == s.out;
    }
  }

  lemma EmitNone(s: State)
    ensures Emit(s, []) == s
  {
    assert s.out + [] == s.out;
  }

  lemma EmitTwice(s: State, a: seq<byte>, b: seq<byte>)
    requires |s.out| <= OUT_MAX
    ensures Emit(Emit(s, a), b) == Emit(s, a + b)
  {
    var t := Emit(s, a);
    if |s.out| + |a| <= OUT_MAX {
      if |s.out| + |a| + |b| <= OUT_MAX {
        assert s.out + a + b == s.out + (a + b);
      } else {
        var r := OUT_MAX - |s.out|;
        assert (a + b)[..r] == a + b[..r - |a|];
        assert s.out + (a + b[..r - |a|]) == s.out + a + b[..r - |a|];
      }
    } else {
      var r := OUT_MAX - |s.out|;
      assert (a + b)[..r] == a[..r];
      assert b[..0] == [] && t.out + [] == t.out;
    }
  }

  lemma EmitKeeps(s: State, b: seq<byte>)
    ensures Emit(s, b).labels == s.labels
  {
  }

  lemma NoLines(pass: nat, s: State)
    ensures Lines(pass, s, []) == s
  {
  }

  lemma EndedVain(s: State)
    requires Vain(s)
    ensures Vain(ZasLines.Ended(s))
  {
  }
}
