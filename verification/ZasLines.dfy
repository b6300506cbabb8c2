/** Source lines of the assembler, the bytes they stand for, and the assembler's state as a value. */
module ZasLines {
  import opened Bytes

  const OUT_MAX := 16384
  const LABEL_MAX := 128
  const FIXUP_MAX := 256
  const VMA := 0x0080_0000
  const WORD := 0x1_0000_0000

  datatype Reg = Eax | Ecx | Edx | Ebx | Esp | Ebp | Esi | Edi

  datatype Sec = Text | Data | Bss

  /** A number, or a name that stands for the address of a label. */
  datatype Expr = Number(v: u32) | Named(name: string)

  datatype Item = Chars(bytes: seq<byte>) | Value(e: Expr)

  datatype Arith = Add | Sub | Xor | And | Or | Cmp

  datatype Simple = Nop | Hlt | Ret | Leave | Pusha | Popa | Pushf | Popf | Sti | Cli | Cld | Std

  datatype OneReg = Neg | Not | Mul | Imul | Idiv | Div

  /** Jump, call and the conditional jumps, each under one of its names. */
  datatype Jump = Jmp | Call | Je | Jne | Jl | Jle | Jg | Jge | Ja | Jb | Jae | Jbe

  datatype Ins =
    | Plain(m: Simple)
    | Interrupt(n: u32)
    | PushReg(r: Reg) | PopReg(r: Reg) | PushNum(v: u32) | PushNeg(v: u32)
    | IncReg(r: Reg) | DecReg(r: Reg)
    | Unary(un: OneReg, r: Reg)
    | Xchg(r1: Reg, r2: Reg)
    | MovReg(r1: Reg, r2: Reg) | MovNum(r: Reg, v: u32) | MovNeg(r: Reg, v: u32)
    | ArithReg(op: Arith, r1: Reg, r2: Reg) | ArithNum(op: Arith, r: Reg, v: u32) | ArithNeg(op: Arith, r: Reg, v: u32)
    | Unknown

  datatype Line =
    | Section(to: Sec) | OtherSection | Global
    | Label(name: string)
    | Db(items: seq<Item>) | Dw(e: Expr) | Dd(e: Expr) | Times(count: Expr, e: Expr) | Resb(count: Expr)
    | Code(ins: Ins)
    | PushName(name: string) | MovName(r: Reg, name: string)
    | Branch(jump: Jump, target: string)
    | JmpTo(addr: u32)

  function Wrap(x: int): u32 { x % WORD }

  function Word(v: u32): (b: seq<byte>)
    ensures |b| == 4
  {
    [Byte(v, 0), Byte(v, 1), Byte(v, 2), Byte(v, 3)]
  }

  function RegCode(r: Reg): (c: nat)
    ensures c < 8
  {
    match r
    case Eax => 0
    case Ecx => 1
    case Edx => 2
    case Ebx => 3
    case Esp => 4
    case Ebp => 5
    case Esi => 6
    case Edi => 7
  }

  function SimpleOp(m: Simple): byte {
    match m
    case Nop => 0x90
    case Hlt => 0xF4
    case Ret => 0xC3
    case Leave => 0xC9
    case Pusha => 0x60
    case Popa => 0x61
    case Pushf => 0x9C
    case Popf => 0x9D
    case Sti => 0xFB
    case Cli => 0xFA
    case Cld => 0xFC
    case Std => 0xFD
  }

  /** The opcode for two registers. */
  function RegOp(op: Arith): byte {
    match op
    case Add => 0x03
    case Sub => 0x2B
    case Xor => 0x33
    case And => 0x23
    case Or => 0x0B
    case Cmp => 0x3B
  }

  /** The digit that stands in the byte of operands when there is an immediate. */
  function Digit(op: Arith): (d: nat)
    ensures d < 8
  {
    match op
    case Add => 0
    case Sub => 5
    case Xor => 6
    case And => 4
    case Or => 1
    case Cmp => 7
  }

  function UnaryDigit(op: OneReg): (d: nat)
    ensures d < 8
  {
    match op
    case Neg => 3
    case Not => 2
    case Mul => 4
    case Imul => 5
    case Idiv => 7
    case Div => 6
  }

  function JumpOp(j: Jump): (op: seq<byte>)
    ensures 1 <= |op| <= 2
  {
    match j
    case Jmp => [0xE9]
    case Call => [0xE8]
    case Je => [0x0F, 0x84]
    case Jne => [0x0F, 0x85]
    case Jl => [0x0F, 0x8C]
    case Jle => [0x0F, 0x8E]
    case Jg => [0x0F, 0x8F]
    case Jge => [0x0F, 0x8D]
    case Ja => [0x0F, 0x87]
    case Jb => [0x0F, 0x82]
    case Jae => [0x0F, 0x83]
    case Jbe => [0x0F, 0x86]
  }

  function ModRm(reg: nat, rm: nat): byte
    requires reg < 8 && rm < 8
  {
    0xC0 + 8 * reg + rm
  }

  function Minus32(v: u32): u32 {
    var x: int := v;
    Wrap(-x)
  }

  /** Minus a number; one of 2^31 and above counts as negative itself. */
  function Negated(v: u32): int {
    var x: int := v;
    if x < 0x8000_0000 then -x else WORD - x
  }

  /** Instructions without names: short forms for small numbers. */
  function Encode(i: Ins): seq<byte> {
    match i
    case Plain(m) => [SimpleOp(m)]
    case Interrupt(n) => [0xCD, n % 256]
    case PushReg(r) => [0x50 + RegCode(r)]
    case PopReg(r) => [0x58 + RegCode(r)]
    case PushNum(v) => if v <= 127 then [0x6A, v] else [0x68] + Word(v)
    case PushNeg(v) => [0x68] + Word(Minus32(v))
    case IncReg(r) => [0x40 + RegCode(r)]
    case DecReg(r) => [0x48 + RegCode(r)]
    case Unary(op, r) => [0xF7, ModRm(UnaryDigit(op), RegCode(r))]
    case Xchg(r1, r2) => [0x87, ModRm(RegCode(r1), RegCode(r2))]
    case MovReg(r1, r2) => [0x8B, ModRm(RegCode(r1), RegCode(r2))]
    case MovNum(r, v) => [0xB8 + RegCode(r)] + Word(v)
    case MovNeg(r, v) => [0xB8 + RegCode(r)] + Word(Minus32(v))
    case ArithReg(op, r1, r2) => [RegOp(op), ModRm(RegCode(r1), RegCode(r2))]
    case ArithNum(op, r, v) =>
      if v <= 127 then [0x83, ModRm(Digit(op), RegCode(r)), v] else [0x81, ModRm(Digit(op), RegCode(r))] + Word(v)
    case ArithNeg(op, r, v) =>
      if Negated(v) >= -128 then [0x83, ModRm(Digit(op), RegCode(r)), Minus32(v) % 256]
          else [0x81, ModRm(Digit(op), RegCode(r))] + Word(Minus32(v))
    case Unknown => []
  }

  // ---- state ----

  datatype Lab = Lab(name: string, addr: u32)

  datatype Fixup = Fixup(at: nat, name: string, base: u32, relative: bool)

  /** `out` is what has been written in this pass. */
  datatype State = State(out: seq<byte>, labels: seq<Lab>, fixups: seq<Fixup>, sec: Sec, textSize: nat, dataSize: nat,
                         bssSize: nat, dataStart: nat, entry: u32, entrySet: bool)

  function Find(ls: seq<Lab>, name: string, i: nat): (k: int)
    requires i <= |ls|
    ensures k == -1 || (i <= k < |ls| && ls[k].name == name)
    ensures k == -1 <==> forall j | i <= j < |ls| :: ls[j].name != name
    decreases |ls| - i
  {
    if i == |ls| then -1 else if ls[i].name == name then i else Find(ls, name, i + 1)
  }

  function AddrOf(ls: seq<Lab>, name: string): u32 {
    var k := Find(ls, name, 0);
    if k >= 0 then ls[k].addr else 0
  }

  function Defined(ls: seq<Lab>, name: string, addr: u32): seq<Lab> {
    var k := Find(ls, name, 0);
    if k >= 0 then ls[k := Lab(name, addr)] else if |ls| >= LABEL_MAX then ls else ls + [Lab(name, addr)]
  }

  function ValueOf(ls: seq<Lab>, e: Expr): u32 { if e.Number? then e.v else AddrOf(ls, e.name) }

  function Less(a: nat, b: nat): nat { if b <= a then a - b else 0 }

  function Align4(x: int): int { (x + 3) / 4 * 4 }

  /** The address of the next byte, in 32-bit arithmetic. */
  function CurVma(s: State): u32 {
    match s.sec
    case Text => Wrap(VMA + |s.out|)
    case Data => Wrap(Align4(VMA + s.textSize) + |s.out| - s.dataStart)
    case Bss => Wrap(Align4(VMA + s.textSize) + s.dataSize)
  }

  /** Bytes behind the end of the buffer are dropped. */
  function Emit(s: State, b: seq<byte>): State {
    var room := if |s.out| < OUT_MAX then OUT_MAX - |s.out| else 0;
    s.(out := s.out + if |b| <= room then b else b[..room])
  }

  function WithFixup(s: State, f: Fixup): State {
    if |s.fixups| >= FIXUP_MAX then s else s.(fixups := s.fixups + [f])
  }

  function ItemBytes(ls: seq<Lab>, i: Item): seq<byte> {
    if i.Chars? then i.bytes else [ValueOf(ls, i.e) % 256]
  }

  function ItemsBytes(ls: seq<Lab>, items: seq<Item>): seq<byte> {
    if items == [] then [] else ItemBytes(ls, items[0]) + ItemsBytes(ls, items[1..])
  }

  function Repeat(n: nat, b: byte): seq<byte> { seq(n, _ => b) }

  /** A branch: to a known label in the second pass, else four zeros, and a fixup in the second pass. */
  function BranchStep(pass: nat, s: State, opcode: seq<byte>, target: string): State {
    var t := Emit(s, opcode);
    if Find(t.labels, target, 0) >= 0 && pass == 2 then Emit(t, Word(Wrap(AddrOf(t.labels, target) - (CurVma(t) + 4))))
    else
      var u := if pass == 2 then WithFixup(t, Fixup(|t.out|, target, Wrap(CurVma(t) + 4), true)) else t;
      Emit(u, Word(0))
  }

  /** One line of the source in pass 1 or 2. */
  function LineStep(pass: nat, s: State, l: Line): State {
    match l
    case Section(to) =>
      var t := if pass == 1 && s.sec.Text? && !to.Text? then s.(textSize := |s.out|)
               else if pass == 1 && s.sec.Data? && to.Bss? then s.(dataSize := Less(|s.out|, s.dataStart)) else s;
      t.(sec := to)
    case OtherSection => s
    case Global => s
    case Label(n) =>
      if pass != 1 then s
      else
        var a := CurVma(s);
        var t := s.(labels := Defined(s.labels, n, a));
        if n == "_start" || !s.entrySet then t.(entry := a, entrySet := true) else t
    case Db(items) => Emit(s, ItemsBytes(s.labels, items))
    case Dw(e) => var v: int := ValueOf(s.labels, e); Emit(s, [v % 256, v / 256 % 256])
    case Dd(e) =>
      var t := if e.Named? && Find(s.labels, e.name, 0) < 0 && pass == 2 then WithFixup(s,
          Fixup(|s.out|, e.name, 0, false)) else s;
      Emit(t, Word(ValueOf(s.labels, e)))
    case Times(c, e) => Emit(s, Repeat(ValueOf(s.labels, c), ValueOf(s.labels, e) % 256))
    case Resb(c) =>
      if s.sec.Bss? then s.(bssSize := s.bssSize + ValueOf(s.labels, c)) else Emit(s, Repeat(ValueOf(s.labels, c), 0))
    case Code(i) => Emit(s, Encode(i))
    case PushName(n) => Emit(s, [0x68] + Word(AddrOf(s.labels, n)))
    case MovName(r, n) =>
      var t := if Find(s.labels, n, 0) < 0 && pass == 2 then WithFixup(s, Fixup(|s.out| + 1, n, 0, false)) else s;
      Emit(t, [0xB8 + RegCode(r)] + Word(AddrOf(s.labels, n)))
    case Branch(j, target) => BranchStep(pass, s, JumpOp(j), target)
    case JmpTo(a) => var t := Emit(s, [0xE9]); Emit(t, Word(Wrap(a - (CurVma(t) + 4))))
  }

  function Lines(pass: nat, s: State, ls: seq<Line>): State {
    if ls == [] then s else LineStep(pass, Lines(pass, s, ls[..|ls| - 1]), ls[|ls| - 1])
  }

  /** What a pass leaves as sizes. */
  function Ended(s: State): State {
    match s.sec
    case Text => s.(textSize := |s.out|)
    case Data => s.(dataSize := Less(|s.out|, s.dataStart))
    case Bss => s
  }

  function Start1(): State { State([], [], [], Text, 0, 0, 0, 0, VMA, false) }

  function Start2(s: State): State { s.(out := [], fixups := [], sec := Text, dataStart := s.textSize) }

  function Pass1(ls: seq<Line>): State { Ended(Lines(1, Start1(), ls)) }
  function Pass2(ls: seq<Line>): State { Ended(Lines(2, Start2(Pass1(ls)), ls)) }
}
