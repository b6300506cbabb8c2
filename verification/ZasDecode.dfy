/** A decoder of 32-bit x86 machine code, made from the opcode map, and what it reads in the finished program. */
module ZasDecode {
  import opened Bytes
  import opened ZasLines
  import opened ZasLayout

  /** An instruction as the processor sees it: immediates are extended to 32 bits, jumps go by a displacement. */
  datatype Op =
    | Alone(m: Simple) | Software(n: byte)
    | Push(r: Reg) | Pop(r: Reg) | PushValue(v: u32) | Inc(r: Reg) | Dec(r: Reg)
    | One(un: OneReg, r: Reg) | Swap(r1: Reg, r2: Reg) | Move(r1: Reg, r2: Reg) | Load(r: Reg, v: u32)
    | Two(op: Arith, r1: Reg, r2: Reg) | With(op: Arith, r: Reg, v: u32)
    | Go(j: Jump, rel: u32)

  datatype Decoded = Got(op: Op, len: nat) | Bad

  datatype Maybe<T> = No | Yes(t: T)

  // ---- the opcode map ----

  const REGISTERS: seq<Reg> := [Eax, Ecx, Edx, Ebx, Esp, Ebp, Esi, Edi]

  /** The eight operations on two operands; two of them, with carry and with borrow, the assembler does not have. */
  const ALU: seq<Maybe<Arith>> := [Yes(Add), Yes(Or), No, No, Yes(And), Yes(Sub), Yes(Xor), Yes(Cmp)]

  /** Group 3, by the digit. */
  const GROUP3: seq<Maybe<OneReg>> := [No, No, Yes(Not), Yes(Neg), Yes(Mul), Yes(Imul), Yes(Div), Yes(Idiv)]

  /** Conditional jumps, by the lower half of the second byte. */
  const CONDITIONS: seq<Maybe<Jump>> := [No, No, Yes(Jb), Yes(Jae), Yes(Je), Yes(Jne), Yes(Jbe), Yes(Ja),
    No, No, No, No, Yes(Jl), Yes(Jge), Yes(Jle), Yes(Jg)]

  /** Instructions of one byte. */
  const SINGLE: map<int, Simple> := map[0x60 := Pusha, 0x61 := Popa, 0x90 := Nop, 0x9C := Pushf, 0x9D := Popf,
    0xC3 := Ret, 0xC9 := Leave, 0xF4 := Hlt, 0xFA := Cli, 0xFB := Sti, 0xFC := Cld, 0xFD := Std]

  /** A byte as a signed number, on 32 bits. */
  function Extended(b: byte): u32 { if b < 0x80 then b else 0xFFFF_FF00 + b as int }

  /** What an opcode with two operands in registers stands for. */
  function Pair(o: int, r1: Reg, r2: Reg): Maybe<Op> {
    if o == 0x87 then Yes(Swap(r1, r2))
    else if o == 0x8B then Yes(Move(r1, r2))
    else if 0 <= o < 0x40 && o % 8 == 3 && ALU[o / 8].Yes? then Yes(Two(ALU[o / 8].t, r1, r2))
    else No
  }

  /** The instruction at `p` of a program. */
  function Decode(b: seq<byte>, p: nat): Decoded {
    if p >= |b| then Bad
    else
      var o: int := b[p];
      if o in SINGLE then Got(Alone(SINGLE[o]), 1)
      else if 0x40 <= o < 0x60 then
        var r := REGISTERS[o % 8];
        Got(if o < 0x48 then Inc(r) else if o < 0x50 then Dec(r) else if o < 0x58 then Push(r) else Pop(r), 1)
      else if p + 1 < |b| && o == 0xCD then Got(Software(b[p + 1]), 2)
      else if p + 1 < |b| && o == 0x6A then Got(PushValue(Extended(b[p + 1])), 2)
      else if p + 5 <= |b| && o in {0x68, 0xE8, 0xE9} then
        var v := Le32(b, p + 1);
        Got(if o == 0x68 then PushValue(v) else Go(if o == 0xE8 then Call else Jmp, v), 5)
      else if p + 5 <= |b| && 0xB8 <= o < 0xC0 then Got(Load(REGISTERS[o % 8], Le32(b, p + 1)), 5)
      else if p + 6 <= |b| && o == 0x0F && b[p + 1] / 0x10 == 8 && CONDITIONS[b[p + 1] % 0x10].Yes? then
        Got(Go(CONDITIONS[b[p + 1] % 0x10].t, Le32(b, p + 2)), 6)
      else if p + 1 < |b| && b[p + 1] >= 0xC0 then Operands(b, p, o, b[p + 1] / 8 % 8, REGISTERS[b[p + 1] % 8])
      else Bad
  }

  /** An instruction with a byte of operands: a field of three bits, and a register. */
  function Operands(b: seq<byte>, p: nat, o: int, field: nat, rm: Reg): Decoded
    requires p + 1 < |b| && field < 8
  {
    if o == 0xF7 then if GROUP3[field].Yes? then Got(One(GROUP3[field].t, rm), 2) else Bad
    else if p + 3 <= |b| && o == 0x83 && ALU[field].Yes? then Got(With(ALU[field].t, rm, Extended(b[p + 2])), 3)
    else if p + 6 <= |b| && o == 0x81 && ALU[field].Yes? then Got(With(ALU[field].t, rm, Le32(b, p + 2)), 6)
    else
      var m := Pair(o, REGISTERS[field], rm);
      if m.Yes? then Got(m.t, 2) else Bad
  }

  // ---- instructions are what they say ----

  function Minus(v: u32): u32 { (WORD - v as int) % WORD }

  /** What a line of source asks for. */
  function Means(i: Ins): Op
    requires !i.Unknown?
  {
    match i
    case Plain(m) => Alone(m)
    case Interrupt(n) => Software(n % 256)
    case PushReg(r) => Push(r)
    case PopReg(r) => Pop(r)
    case PushNum(v) => PushValue(v)
    case PushNeg(v) => PushValue(Minus(v))
    case IncReg(r) => Inc(r)
    case DecReg(r) => Dec(r)
    case Unary(op, r) => One(op, r)
    case Xchg(r1, r2) => Swap(r1, r2)
    case MovReg(r1, r2) => Move(r1, r2)
    case MovNum(r, v) => Load(r, v)
    case MovNeg(r, v) => Load(r, Minus(v))
    case ArithReg(op, r1, r2) => Two(op, r1, r2)
    case ArithNum(op, r, v) => With(op, r, v)
    case ArithNeg(op, r, v) => With(op, r, Minus(v))
  }

  /** The bytes `e` stand at `p`. */
  ghost predicate At(b: seq<byte>, p: nat, e: seq<byte>) {
    p + |e| <= |b| && forall i | 0 <= i < |e| :: b[p + i] == e[i]
  }

  /** A number subtracted that does not fit one byte, but has its upper bit set, is cut to one byte. */
  predicate Cut(i: Ins) { i.ArithNeg? && 0x8000_0000 <= i.v <= 0xFFFF_FF80 }

  lemma RegisterIs(r: Reg)
    ensures REGISTERS[RegCode(r)] == r
  {
  }

  lemma OperandByte(reg: nat, rm: nat)
    requires reg < 8 && rm < 8
    ensures var m: int := ModRm(reg, rm); m >= 0xC0 && m / 8 % 8 == reg && m % 8 == rm
  {
  }

  lemma ArithIs(op: Arith)
    ensures ALU[Digit(op)] == Yes(op) && RegOp(op) == 8 * Digit(op) + 3
  {
  }

  lemma SingleIs(m: Simple)
    ensures var o: int := SimpleOp(m); o in SINGLE && SINGLE[o] == m
  {
  }

  lemma NotSingle(o: int)
    ensures o < 0x60 || 0x61 < o < 0x90 || 0xA0 <= o < 0xC0 || 0xCA <= o < 0xF4 || o == 0xF7 ==> o !in SINGLE
  {
  }

  /** Instructions of one byte. */
  lemma SimpleDecodes(m: Simple, b: seq<byte>, p: nat)
    requires At(b, p, Encode(Plain(m)))
    ensures Decode(b, p) == Got(Means(Plain(m)), |Encode(Plain(m))|)
  {
    hide SINGLE, SimpleOp;
    SingleIs(m);
    assert b[p + 0] == Encode(Plain(m))[0];
  }

  /** Instructions of one byte with a register in it. */
  lemma ShortDecodes(i: Ins, b: seq<byte>, p: nat)
    requires (i.PushReg? || i.PopReg? || i.IncReg? || i.DecReg?) && At(b, p, Encode(i))
    ensures Decode(b, p) == Got(Means(i), |Encode(i)|)
  {
    hide REGISTERS, SINGLE, RegCode;
    assert b[p + 0] == Encode(i)[0];
    RegisterIs(i.r);
    NotSingle(b[p]);
  }

  /** Instructions with a byte of operands in registers. */
  lemma PairDecodes(i: Ins, b: seq<byte>, p: nat)
    requires (i.Unary? || i.Xchg? || i.MovReg? || i.ArithReg?) && At(b, p, Encode(i))
    ensures Decode(b, p) == Got(Means(i), |Encode(i)|)
  {
    hide REGISTERS, SINGLE, RegCode, ModRm, Digit, UnaryDigit, ALU, GROUP3, RegOp;
    assert b[p + 0] == Encode(i)[0] && b[p + 1] == Encode(i)[1];
    NotSingle(b[p]);
    if i.Unary? {
      RegisterIs(i.r);
      OperandByte(UnaryDigit(i.un), RegCode(i.r));
      UnaryIs(i.un);
    } else {
      RegisterIs(i.r1);
      RegisterIs(i.r2);
      OperandByte(RegCode(i.r1), RegCode(i.r2));
      if i.ArithReg? {
        ArithIs(i.op);
      }
    }
  }

  lemma UnaryIs(op: OneReg)
    ensures GROUP3[UnaryDigit(op)] == Yes(op)
  {
  }

  /** Bytes in front of a word, and the word. */
  lemma AtWord(b: seq<byte>, p: nat, e: seq<byte>, v: u32)
    requires At(b, p, e + Word(v))
    ensures p + |e| + 4 <= |b| && Le32(b, p + |e|) == v && forall i | 0 <= i < |e| :: b[p + i] == e[i]
  {
    hide Byte, Le32;
    var o, w := p + |e|, e + Word(v);
    assert b[p + |e|] == w[|e|] && b[p + (|e| + 1)] == w[|e| + 1] && b[p + (|e| + 2)] == w[|e| + 2]
        && b[p + (|e| + 3)] == w[|e| + 3];
    Bytes.WordAt(b, o, v);
    forall i | 0 <= i < |e|
      ensures b[p + i] == e[i]
    {
      assert w[i] == e[i];
    }
  }

  lemma MinusIs(v: u32)
    ensures Minus32(v) == Minus(v)
  {
  }

  lemma SmallExtends(v: u32)
    ensures v <= 127 ==> Extended(v) == v
    ensures Negated(v) >= -128 ==> (Extended(Minus(v) % 256) == Minus(v) <==> !(0x8000_0000 <= v <= 0xFFFF_FF80))
    ensures Negated(v) < -128 ==> !(0x8000_0000 <= v <= 0xFFFF_FF80)
  {
  }

  /** Instructions with a number and no byte of operands. */
  lemma NumberDecodes(i: Ins, b: seq<byte>, p: nat)
    requires (i.Interrupt? || i.PushNum? || i.PushNeg? || i.MovNum? || i.MovNeg?) && At(b, p, Encode(i))
    ensures Decode(b, p) == Got(Means(i), |Encode(i)|)
  {
    hide REGISTERS, SINGLE, RegCode, Le32, Word, Minus, Minus32, Extended;
    var push: seq<byte> := [0x68];
    if i.Interrupt? {
      assert b[p + 0] == Encode(i)[0] && b[p + 1] == Encode(i)[1];
    } else if i.PushNum? && i.v <= 127 {
      assert b[p + 0] == Encode(i)[0] && b[p + 1] == Encode(i)[1];
      SmallExtends(i.v);
    } else if i.PushNum? {
      AtWord(b, p, push, i.v);
      assert b[p + 0] == push[0];
    } else if i.PushNeg? {
      MinusIs(i.v);
      AtWord(b, p, push, Minus32(i.v));
      assert b[p + 0] == push[0];
    } else {
      MinusIs(i.v);
      RegisterIs(i.r);
      AtWord(b, p, [0xB8 + RegCode(i.r)], if i.MovNum? then i.v else Minus32(i.v));
      assert b[p + 0] == [0xB8 + RegCode(i.r)][0];
    }
    NotSingle(b[p]);
  }

  /** Operations with a number: short and long form. */
  lemma ImmediateDecodes(i: Ins, b: seq<byte>, p: nat)
    requires (i.ArithNum? || i.ArithNeg?) && At(b, p, Encode(i))
    ensures Decode(b, p).Got? && Decode(b, p).len == |Encode(i)| && Decode(b, p).op.With?
    ensures Decode(b, p).op == Means(i) <==> !Cut(i)
  {
    hide REGISTERS, SINGLE, RegCode, Le32, Word, Minus, Minus32, Extended, ALU, Digit, ModRm, Negated;
    var v := if i.ArithNum? then i.v else Minus32(i.v);
    var m := ModRm(Digit(i.op), RegCode(i.r));
    RegisterIs(i.r);
    ArithIs(i.op);
    OperandByte(Digit(i.op), RegCode(i.r));
    MinusIs(i.v);
    SmallExtends(i.v);
    if |Encode(i)| == 3 {
      assert b[p + 0] == Encode(i)[0] && b[p + 1] == Encode(i)[1] && b[p + 2] == Encode(i)[2];
    } else {
      AtWord(b, p, [0x81, m], v);
      assert b[p + 0] == 0x81 && b[p + 1] == [0x81, m][1];
    }
    NotSingle(b[p]);
  }

  /** Every instruction, whatever is behind it, is decoded to what the source asks for, and its length is the number
      of its bytes; only the numbers cut to one byte come out differently. */
  lemma InsDecodes(i: Ins, b: seq<byte>, p: nat)
    requires !i.Unknown? && At(b, p, Encode(i))
    ensures Decode(b, p).Got? && Decode(b, p).len == |Encode(i)|
    ensures Decode(b, p).op == Means(i) <==> !Cut(i)
  {
    hide At, Decode, Means, Encode;
    match i
    case Plain(m) => SimpleDecodes(m, b, p);
    case ArithNum(_, _, _) => ImmediateDecodes(i, b, p);
    case ArithNeg(_, _, _) => ImmediateDecodes(i, b, p);
    case Unary(_, _) => PairDecodes(i, b, p);
    case Xchg(_, _) => PairDecodes(i, b, p);
    case MovReg(_, _) => PairDecodes(i, b, p);
    case ArithReg(_, _, _) => PairDecodes(i, b, p);
    case PushReg(_) => ShortDecodes(i, b, p);
    case PopReg(_) => ShortDecodes(i, b, p);
    case IncReg(_) => ShortDecodes(i, b, p);
    case DecReg(_) => ShortDecodes(i, b, p);
    case _ => NumberDecodes(i, b, p);
  }

  /** A jump, a call or a conditional jump. */
  lemma JumpDecodes(j: Jump, b: seq<byte>, p: nat)
    requires At(b, p, JumpOp(j)) && p + |JumpOp(j)| + 4 <= |b|
    ensures Decode(b, p) == Got(Go(j, Le32(b, p + |JumpOp(j)|)), |JumpOp(j)| + 4)
  {
    hide SINGLE, Le32, REGISTERS;
    assert b[p + 0] == JumpOp(j)[0] && (|JumpOp(j)| > 1 ==> b[p + 1] == JumpOp(j)[1]);
    NotSingle(b[p]);
  }

  /** Lengths: the short form exactly for the numbers that fit a signed byte, and for those cut to one. */
  lemma Lengths(i: Ins)
    ensures i.PushNum? ==> |Encode(i)| == if i.v < 128 then 2 else 5
    ensures i.ArithNum? ==> |Encode(i)| == if i.v < 128 then 3 else 6
    ensures i.ArithNeg? ==> |Encode(i)| == if i.v <= 128 || i.v >= 0x8000_0000 then 3 else 6
  {
    hide Word;
  }

  // ---- the finished program ----

  /** What the second pass knows at line `k`, and that what the line writes stays. */
  lemma LineInOut(ls: seq<Line>, k: nat)
    requires k < |ls|
    ensures var t := Lines(2, Start2(Pass1(ls)), ls[..k]);
      && |t.out| == Min(StartAgain(ls, k), OUT_MAX) && t.sec == SecAt(ls, k) && t.labels == Pass1(ls).labels
      && LineStep(2, t, ls[k]).out <= Pass2(ls).out
  {
    hide Lines, LineStep, Pass1, StartAgain, SecAt;
    var s := Start2(Pass1(ls));
    SecondStart(ls, k);
    LabelsKept(s, ls[..k]);
    LinesStep(2, s, ls, k);
    Kept(2, s, ls, k + 1, |ls|);
    assert ls[..|ls|] == ls;
  }

  lemma EmitStays(s: State, e: seq<byte>, out: seq<byte>)
    requires |s.out| + |e| <= OUT_MAX && Emit(s, e).out <= out
    ensures At(out, |s.out|, e)
  {
    EmitGrows(s, e);
  }

  /** Every instruction in front of the end of the buffer stands in the finished program where the second pass starts
      its line, and is decoded there to what the source asks for, up to the start of the next line. */
  lemma CodeDecodes(ls: seq<Line>, k: nat)
    requires k < |ls| && ls[k].Code? && !ls[k].ins.Unknown? && StartAgain(ls, k + 1) <= OUT_MAX
    ensures var d := Decode(Pass2(ls).out, StartAgain(ls, k));
      d.Got? && StartAgain(ls, k) + d.len == StartAgain(ls, k + 1) && (d.op == Means(ls[k].ins) <==> !Cut(ls[k].ins))
  {
    hide Lines, Pass1, Pass2, SecAt, Decode, Encode, At, Emit, CountOf, Known;
    LineInOut(ls, k);
    var t := Lines(2, Start2(Pass1(ls)), ls[..k]);
    EmitStays(t, Encode(ls[k].ins), Pass2(ls).out);
    InsDecodes(ls[k].ins, Pass2(ls).out, StartAgain(ls, k));
  }

  /** So does pushing or loading the address of a label. */
  lemma NameDecodes(ls: seq<Line>, k: nat)
    requires k < |ls| && (ls[k].PushName? || ls[k].MovName?) && StartAgain(ls, k + 1) <= OUT_MAX
    ensures var v := AddrOf(Pass1(ls).labels, ls[k].name);
      Decode(Pass2(ls).out, StartAgain(ls, k)) == Got(if ls[k].PushName? then PushValue(v) else Load(ls[k].r, v), 5)
  {
    hide Lines, Pass1, Pass2, SecAt, Decode, At, Emit, CountOf, Known, Word, AddrOf, Find;
    LineInOut(ls, k);
    var t, out := Lines(2, Start2(Pass1(ls)), ls[..k]), Pass2(ls).out;
    var v := AddrOf(t.labels, ls[k].name);
    if ls[k].PushName? {
      EmitStays(t, [0x68] + Word(v), out);
      WordDecodes(Eax, true, v, out, StartAgain(ls, k));
    } else {
      var u := LineStep(2, t, ls[k]);
      MovNameStep(t, ls[k].r, ls[k].name);
      EmitStays(t, [0xB8 + RegCode(ls[k].r)] + Word(v), out);
      WordDecodes(ls[k].r, false, v, out, StartAgain(ls, k));
    }
  }

  lemma MovNameStep(s: State, r: Reg, n: string)
    ensures LineStep(2, s, MovName(r, n)).out == Emit(s, [0xB8 + RegCode(r)] + Word(AddrOf(s.labels, n))).out
  {
    hide Word, AddrOf, Find;
  }

  lemma WordDecodes(r: Reg, push: bool, v: u32, b: seq<byte>, p: nat)
    requires At(b, p, (if push then [0x68] else [0xB8 + RegCode(r)]) + Word(v))
    ensures Decode(b, p) == Got(if push then PushValue(v) else Load(r, v), 5)
  {
    hide Word, SINGLE, REGISTERS, RegCode, Le32, At;
    var e: seq<byte> := if push then [0x68] else [0xB8 + RegCode(r)];
    AtWord(b, p, e, v);
    assert b[p + 0] == e[0];
    RegisterIs(r);
    NotSingle(b[p]);
  }

  /** A jump to a number, in .text: the processor goes on at that address. */
  lemma JmpToLands(ls: seq<Line>, k: nat)
    requires k < |ls| && ls[k].JmpTo? && SecAt(ls, k).Text? && StartAgain(ls, k + 1) <= OUT_MAX
    ensures var d := Decode(Pass2(ls).out, StartAgain(ls, k));
      d.Got? && d.op.Go? && d.op.j == Jmp && Wrap(VMA + StartAgain(ls, k) + d.len + d.op.rel) == ls[k].addr
  {
    hide Lines, LineStep, Pass1, Pass2, SecAt, Decode, At, CountOf, Known, Word, Wrap, Le32, JumpOp;
    LineInOut(ls, k);
    var t, out, p, a := Lines(2, Start2(Pass1(ls)), ls[..k]), Pass2(ls).out, StartAgain(ls, k), ls[k].addr;
    var v := Wrap(a - (Wrap(VMA + p + 1) + 4));
    var e := JumpOp(Jmp);
    JmpIs();
    JmpStep(t, a);
    OutAt(t.out, e + Word(v), out);
    AtWord(out, p, e, v);
    FirstAt(out, p, e, v);
    JumpDecodes(Jmp, out, p);
    JmpWraps(p, a);
  }

  lemma JmpIs()
    ensures JumpOp(Jmp) == [0xE9]
  {
  }

  lemma JmpStep(s: State, a: u32)
    requires s.sec.Text? && |s.out| + 5 <= OUT_MAX
    ensures LineStep(2, s, JmpTo(a)).out
      == s.out + ([0xE9] + Word(Wrap(a - (Wrap(VMA + |s.out| + 1) + 4))))
  {
    hide Word, Emit, Wrap;
    EmitGrows(s, [0xE9]);
    var u := Emit(s, [0xE9]);
    EmitGrows(u, Word(Wrap(a - (Wrap(VMA + |s.out| + 1) + 4))));
  }

  lemma JmpWraps(p: nat, a: u32)
    ensures Wrap(VMA + p + 5 + Wrap(a - (Wrap(VMA + p + 1) + 4))) == a
  {
  }

  lemma OutAt(before: seq<byte>, e: seq<byte>, out: seq<byte>)
    requires before + e <= out
    ensures At(out, |before|, e)
  {
  }

  lemma FirstAt(b: seq<byte>, p: nat, e: seq<byte>, v: u32)
    requires At(b, p, e + Word(v))
    ensures At(b, p, e)
  {
    hide Word, Le32;
    AtWord(b, p, e, v);
  }

  /** The branch theorem on decoded instructions: under the conditions of BranchLands, what stands at the line is the
      jump the source names, and the processor goes on at the byte behind the label. */
  lemma BranchDecodes(ls: seq<Line>, k: nat, j: nat)
    requires Steady(ls) && DistinctLabels(ls) && LabelsIn(ls) <= LABEL_MAX && Start(ls, |ls|) <= OUT_MAX
    requires k < |ls| && j < |ls| && ls[k].Branch? && ls[j] == Label(ls[k].target) && SecAt(ls, k).Text?
    requires SecAt(ls, j).Text?
    ensures var p := Start(ls, k);
      var d := Decode(Pass2(ls).out, p);
      d.Got? && d.op.Go? && d.op.j == ls[k].jump && Wrap(p + d.len + d.op.rel) == Start(ls, j + 1)
  {
    hide Steady, DistinctLabels, LabelsIn, Start, SecAt, Pass2, Decode, Le32, JumpOp;
    BranchLands(ls, k, j);
    var out, p, op := Pass2(ls).out, Start(ls, k), JumpOp(ls[k].jump);
    forall i | 0 <= i < |op|
      ensures out[p + i] == op[i]
    {
      assert out[p..p + |op|][i] == op[i];
    }
    JumpDecodes(ls[k].jump, out, p);
  }

  // ---- data ----

  /** Words and double words stand in the finished program low byte first, a name as the address of its label. */
  lemma WordsInOut(ls: seq<Line>, k: nat)
    requires k < |ls| && (ls[k].Dw? || ls[k].Dd?) && StartAgain(ls, k + 1) <= OUT_MAX
    ensures var out, p, v := Pass2(ls).out, StartAgain(ls, k), ValueOf(Pass1(ls).labels, ls[k].e);
      && StartAgain(ls, k + 1) == p + (if ls[k].Dw? then 2 else 4) <= |out|
      && (ls[k].Dw? ==> out[p] as int + 0x100 * out[p + 1] as int == v as int % 0x1_0000)
      && (ls[k].Dd? ==> out[p] as int + 0x100 * out[p + 1] as int + 0x1_0000 * out[p + 2] as int
                          + 0x100_0000 * out[p + 3] as int == v)
  {
    hide Lines, LineStep, Pass1, Pass2, SecAt, At, CountOf, Known, Word, ValueOf, Emit;
    LineInOut(ls, k);
    var t, out, p := Lines(2, Start2(Pass1(ls)), ls[..k]), Pass2(ls).out, StartAgain(ls, k);
    var v := ValueOf(t.labels, ls[k].e);
    if ls[k].Dw? {
      DwStep(t, ls[k].e);
      EmitStays(t, Half(v), out);
      HalfAt(out, p, v);
    } else {
      DdStep(t, ls[k].e);
      EmitStays(t, [] + Word(v), out);
      AtWord(out, p, [], v);
    }
  }

  function Half(v: u32): (b: seq<byte>)
    ensures |b| == 2
  {
    [v % 256, v / 256 % 256]
  }

  lemma HalfAt(b: seq<byte>, p: nat, v: u32)
    requires At(b, p, Half(v))
    ensures p + 2 <= |b| && b[p] as int + 0x100 * b[p + 1] as int == v as int % 0x1_0000
  {
    assert b[p + 0] == Half(v)[0] && b[p + 1] == Half(v)[1];
    LowBytes(v);
  }

  lemma LowBytes(v: nat)
    ensures v % 256 + 0x100 * (v / 256 % 256) == v % 0x1_0000
  {
    var q := v / 256;
    assert v == 256 * q + v % 256 && q == 256 * (q / 256) + q % 256;
    DivModUnique(v, 0x1_0000, q / 256, 256 * (q % 256) + v % 256);
  }

  lemma DwStep(s: State, e: Expr)
    ensures LineStep(2, s, Dw(e)).out == Emit(s, Half(ValueOf(s.labels, e))).out
  {
    hide Emit, ValueOf;
  }

  lemma DdStep(s: State, e: Expr)
    ensures LineStep(2, s, Dd(e)).out == Emit(s, [] + Word(ValueOf(s.labels, e))).out
  {
    hide Word, ValueOf, Find;
    assert [] + Word(ValueOf(s.labels, e)) == Word(ValueOf(s.labels, e));
  }

  /** Repeated and reserved bytes. */
  lemma RepeatsInOut(ls: seq<Line>, k: nat, i: nat)
    requires k < |ls| && (ls[k].Times? || (ls[k].Resb? && !SecAt(ls, k).Bss?)) && StartAgain(ls, k + 1) <= OUT_MAX
    requires ls[k].count.Number? && i < ls[k].count.v
    ensures var out, p := Pass2(ls).out, StartAgain(ls, k);
      && p + i < StartAgain(ls, k + 1) <= |out|
      && out[p + i] == if ls[k].Times? then ValueOf(Pass1(ls).labels, ls[k].e) % 256 else 0
  {
    hide Lines, Pass1, Pass2, SecAt, At, Known, Emit;
    LineInOut(ls, k);
    var t, out, p := Lines(2, Start2(Pass1(ls)), ls[..k]), Pass2(ls).out, StartAgain(ls, k);
    var b: byte := if ls[k].Times? then ValueOf(t.labels, ls[k].e) % 256 else 0;
    EmitStays(t, Repeat(ls[k].count.v, b), out);
    ItemAt(out, p, Repeat(ls[k].count.v, b), i);
  }

  lemma ItemAt(b: seq<byte>, p: nat, e: seq<byte>, i: nat)
    requires At(b, p, e) && i < |e|
    ensures p + |e| <= |b| && b[p + i] == e[i]
  {
  }

  /** The bytes of a list: each text as it is, each number cut to its lowest byte. */
  lemma ItemsInOut(ls: seq<Line>, k: nat, m: nat)
    requires k < |ls| && ls[k].Db? && StartAgain(ls, k + 1) <= OUT_MAX && m < |ls[k].items|
    ensures var out, p, i := Pass2(ls).out, StartAgain(ls, k) + ItemsSize(ls[k].items[..m]), ls[k].items[m];
      && StartAgain(ls, k + 1) == StartAgain(ls, k) + ItemsSize(ls[k].items) <= |out|
      && (i.Chars? ==> At(out, p, i.bytes))
      && (i.Value? ==> p < |out| && out[p] == ValueOf(Pass1(ls).labels, i.e) % 256)
  {
    hide Lines, Pass1, Pass2, SecAt, Known, Emit, ItemsBytes, ItemsSize, ValueOf, At, CountOf;
    LineInOut(ls, k);
    var t, out, p := Lines(2, Start2(Pass1(ls)), ls[..k]), Pass2(ls).out, StartAgain(ls, k);
    var items := ls[k].items;
    ItemsBytesSize(t.labels, items);
    EmitStays(t, ItemsBytes(t.labels, items), out);
    ItemOffset(t.labels, items, m);
    var b, o := ItemBytes(t.labels, items[m]), ItemsSize(items[..m]);
    AtInside(out, p, ItemsBytes(t.labels, items), o, b);
    if items[m].Value? {
      ItemAt(out, p + o, b, 0);
    }
  }

  lemma AtInside(b: seq<byte>, p: nat, e: seq<byte>, o: nat, f: seq<byte>)
    requires At(b, p, e) && o + |f| <= |e| && e[o..o + |f|] == f
    ensures At(b, p + o, f) && p + |e| <= |b|
  {
    forall i | 0 <= i < |f|
      ensures b[p + o + i] == f[i]
    {
      assert e[o..o + |f|][i] == e[o + i];
      assert b[p + (o + i)] == e[o + i];
    }
  }

  lemma {:induction false} ItemOffset(labs: seq<Lab>, items: seq<Item>, m: nat)
    requires m < |items|
    ensures var o, all := ItemsSize(items[..m]), ItemsBytes(labs, items);
      o + |ItemBytes(labs, items[m])| <= |all| && all[o..o + |ItemBytes(labs, items[m])|] == ItemBytes(labs, items[m])
  {
    hide ItemBytes;
    if m > 0 {
      ItemOffset(labs, items[1..], m - 1);
      assert items[..m][1..] == items[1..][..m - 1];
      SizeIs(labs, items[0]);
      var a, b := ItemBytes(labs, items[0]), ItemBytes(labs, items[m]);
      var rest, o := ItemsBytes(labs, items[1..]), ItemsSize(items[1..][..m - 1]);
      assert (a + rest)[|a| + o..|a| + o + |b|] == rest[o..o + |b|];
    } else {
      assert items[..0] == [];
    }
  }

  lemma SizeIs(labs: seq<Lab>, i: Item)
    ensures |ItemBytes(labs, i)| == ItemSize(i)
  {
  }
}
