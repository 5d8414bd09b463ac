/** The BPF machine: statements, their meaning, and the opcode encoding. */
module Bpf {
  import opened Words

  const MEMWORDS := 16

  datatype Size = Byte | Half | Word

  function Width(size: Size): nat {
    match size case Byte => 1 case Half => 2 case Word => 4
  }

  /** A captured packet: the bytes present and the length it had on the wire. */
  datatype RawPacket = RawPacket(data: seq<byte>, wirelen: u32)
  type Packet = p: RawPacket | |p.data| < WORD witness RawPacket([], 0)

  datatype AluOp = Add | Sub | Mul | Div | Mod | BitAnd | BitOr | BitXor | Lsh | Rsh

  datatype Cond = Eq | Gt | Ge | Set

  /** Everything but the jumps and returns. */
  datatype Stmt =
    | LdAbs(size: Size, k: u32)
    | LdInd(size: Size, k: u32)
    | LdLen
    | LdxLen
    | LdxMsh(k: u32)
    | LdImm(k: u32)
    | LdxImm(k: u32)
    | LdMem(k: u32)
    | LdxMem(k: u32)
    | St(k: u32)
    | Stx(k: u32)
    | AluK(op: AluOp, k: u32)
    | AluX(op: AluOp)
    | Neg
    | Tax
    | Txa

  type Scratch = m: seq<u32> | |m| == MEMWORDS witness seq(MEMWORDS, i => 0)
  datatype Regs = Regs(a: u32, x: u32, mem: Scratch)

  /** Why a statement ends the run instead of reaching the next one.
      The first two make the program return 0; the third is undefined in C. */
  datatype Stop = OutsidePacket | ZeroDivisor | Undefined
  datatype Effect = Next(regs: Regs) | Halt(why: Stop)

  /** The big-endian field of the given size at an offset. */
  function Field(data: seq<byte>, off: nat, size: Size): u32
    requires off + Width(size) <= |data|
  {
    match size
    case Byte => data[off]
    case Half => 0x100 * (data[off] as int) + data[off + 1]
    case Word => 0x100_0000 * (data[off] as int) + 0x1_0000 * (data[off + 1] as int)
                 + 0x100 * (data[off + 2] as int) + data[off + 3]
  }

  lemma {:induction false} Base256Takes(octets: seq<byte>, n: nat)
    requires 0 < n <= |octets|
    ensures Base256(octets[..n]) == 0x100 * Base256(octets[..n - 1]) + octets[n - 1]
  {
    assert octets[..n][..n - 1] == octets[..n - 1];
  }

  /** A field of each size is the number that its one, two or four octets make. */
  lemma FieldIsOctets(data: seq<byte>, off: nat)
    ensures off + 1 <= |data| ==> Field(data, off, Byte) == Base256(data[off..off + 1])
    ensures off + 2 <= |data| ==> Field(data, off, Half) == Base256(data[off..off + 2])
    ensures off + 4 <= |data| ==> Field(data, off, Word) == Base256(data[off..off + 4])
  {
    if off + 1 <= |data| {
      Base256Takes(data[off..off + 1], 1);
    }
    if off + 2 <= |data| {
      Base256Takes(data[off..off + 2], 1);
      Base256Takes(data[off..off + 2], 2);
    }
    if off + 4 <= |data| {
      Base256Takes(data[off..off + 4], 1);
      Base256Takes(data[off..off + 4], 2);
      Base256Takes(data[off..off + 4], 3);
      Base256Takes(data[off..off + 4], 4);
    }
  }

  /** A load of this size finds its octets from off on, and this number in them. */
  ghost predicate Reads(data: seq<byte>, off: nat, size: Size, ok: bool, value: u32) {
    match size
    case Byte => ok == (off + 1 <= |data|) && (ok ==> value == Base256(data[off..off + 1]))
    case Half => ok == (off + 2 <= |data|) && (ok ==> value == Base256(data[off..off + 2]))
    case Word => ok == (off + 4 <= |data|) && (ok ==> value == Base256(data[off..off + 4]))
  }

  /** A op x for a nonzero divisor; shifts by 32 or more give 0. */
  function Alu(op: AluOp, a: u32, x: u32): u32
    requires op in {Div, Mod} ==> x != 0
  {
    match op
    case Add => Wrap(a + x)
    case Sub => Wrap(a - x)
    case Mul => Wrap(a * x)
    case Div => Quotient(a, x)
    case Mod => a % x
    case BitAnd => And32(a, x)
    case BitOr => Or32(a, x)
    case BitXor => Xor32(a, x)
    case Lsh => if x < 32 then Wrap(a * Pow2(x)) else 0
    case Rsh => if x < 32 then Quotient(a, Pow2(x)) else 0
  }

  function Quotient(a: u32, d: nat): u32
    requires d > 0
  {
    DivisionShrinks(a, d);
    a / d
  }

  lemma DivisionShrinks(a: nat, d: nat)
    requires d > 0
    ensures a / d <= a
  {
    var q := a / d;
    assert a == d * q + a % d;
    assert d * q == q + (d - 1) * q;
    ProductIsNat(d - 1, q);
  }

  lemma ProductIsNat(a: nat, b: nat)
    ensures a * b >= 0
  {
  }

  predicate Holds(cond: Cond, a: u32, x: u32) {
    match cond
    case Eq => a == x
    case Gt => a > x
    case Ge => a >= x
    case Set => And32(a, x) != 0
  }

  function LoadA(r: Regs, p: Packet, off: nat, size: Size): Effect {
    if off + Width(size) <= |p.data| then Next(r.(a := Field(p.data, off, size))) else Halt(OutsidePacket)
  }

  /** One statement, with every offset and bound an unbounded integer. */
  function Exec(s: Stmt, r: Regs, p: Packet): Effect {
    match s
    case LdAbs(size, k) => LoadA(r, p, k, size)
    case LdInd(size, k) => LoadA(r, p, r.x + k, size)
    case LdLen => Next(r.(a := p.wirelen))
    case LdxLen => Next(r.(x := p.wirelen))
    case LdxMsh(k) => if k < |p.data| then Next(r.(x := 4 * (p.data[k] % 16))) else Halt(OutsidePacket)
    case LdImm(k) => Next(r.(a := k))
    case LdxImm(k) => Next(r.(x := k))
    case LdMem(k) => if k < MEMWORDS then Next(r.(a := r.mem[k])) else Halt(Undefined)
    case LdxMem(k) => if k < MEMWORDS then Next(r.(x := r.mem[k])) else Halt(Undefined)
    case St(k) => if k < MEMWORDS then Next(r.(mem := r.mem[k := r.a])) else Halt(Undefined)
    case Stx(k) => if k < MEMWORDS then Next(r.(mem := r.mem[k := r.x])) else Halt(Undefined)
    case AluK(op, k) =>
      if (op in {Div, Mod} && k == 0) || (op in {Lsh, Rsh} && k >= 32) then Halt(Undefined)
      else Next(r.(a := Alu(op, r.a, k)))
    case AluX(op) =>
      if op in {Div, Mod} && r.x == 0 then Halt(ZeroDivisor) else Next(r.(a := Alu(op, r.a, r.x)))
    case Neg => Next(r.(a := Wrap(0 - r.a as int)))
    case Tax => Next(r.(x := r.a))
    case Txa => Next(r.(a := r.x))
  }

  /** The statement has no bad memory index and no zero constant divisor. */
  predicate Defined(s: Stmt) {
    match s
    case LdMem(k) => k < MEMWORDS
    case LdxMem(k) => k < MEMWORDS
    case St(k) => k < MEMWORDS
    case Stx(k) => k < MEMWORDS
    case AluK(op, k) => !((op == Div || op == Mod) && k == 0)
    case _ => true
  }

  predicate AllDefined(ss: seq<Stmt>) {
    forall s <- ss :: Defined(s)
  }

  /** A statement list, first to last. */
  function ExecAll(ss: seq<Stmt>, r: Regs, p: Packet): Effect {
    if ss == [] then Next(r)
    else
      match Exec(ss[0], r, p)
      case Next(r') => ExecAll(ss[1..], r', p)
      case Halt(why) => Halt(why)
  }

  lemma {:induction false} ExecAllAppend(ss: seq<Stmt>, ts: seq<Stmt>, r: Regs, p: Packet)
    ensures ExecAll(ss + ts, r, p) ==
            match ExecAll(ss, r, p) case Next(r') => ExecAll(ts, r', p) case Halt(why) => Halt(why)
  {
    if ss == [] {
      assert ss + ts == ts;
    } else {
      assert (ss + ts)[0] == ss[0] && (ss + ts)[1..] == ss[1..] + ts;
      match Exec(ss[0], r, p) {
        case Next(r') => ExecAllAppend(ss[1..], ts, r', p);
        case Halt(_) =>
      }
    }
  }

  lemma ExecOne(s: Stmt, r: Regs, p: Packet)
    ensures ExecAll([s], r, p) == Exec(s, r, p)
  {
    match Exec(s, r, p) {
      case Next(r') => assert [s][1..] == [] && ExecAll([], r', p) == Next(r');
      case Halt(_) =>
    }
  }

  /** One machine instruction as it lies in a program. */
  datatype Insn = Insn(code: nat, jt: byte, jf: byte, k: u32)

  /** What an instruction asks for. Bad is every opcode the interpreter's switch does not list. */
  datatype Op =
    | Plain(s: Stmt)
    | RetK(k: u32)
    | RetA
    | Ja(k: u32)
    | Jump(cond: Cond, withX: bool, k: u32, jt: byte, jf: byte)
    | Bad

  function SizeBits(size: Size): nat {
    match size case Word => 0x00 case Half => 0x08 case Byte => 0x10
  }

  function AluBits(op: AluOp): nat {
    match op
    case Add => 0x00 case Sub => 0x10 case Mul => 0x20 case Div => 0x30 case BitOr => 0x40
    case BitAnd => 0x50 case Lsh => 0x60 case Rsh => 0x70 case Mod => 0x90 case BitXor => 0xa0
  }

  function CondBits(cond: Cond): nat {
    match cond case Eq => 0x10 case Gt => 0x20 case Ge => 0x30 case Set => 0x40
  }

  /** The opcode fields of bpf.h: class, mode, operator, source. */
  function ClassOf(code: nat): nat { code % 8 }
  function ModeOf(code: nat): nat { (code / 0x20) % 8 * 0x20 }
  function OpOf(code: nat): nat { (code / 0x10) % 0x10 * 0x10 }
  function SrcOf(code: nat): nat { (code / 8) % 2 * 8 }

  const LD := 0x00
  const LDX := 0x01
  const ST := 0x02
  const STX := 0x03
  const ALU := 0x04
  const JMP := 0x05
  const RET := 0x06
  const MISC := 0x07

  const IMM := 0x00
  const ABS := 0x20
  const IND := 0x40
  const MEM := 0x60
  const LEN := 0x80
  const MSH := 0xa0

  function Encode(s: Stmt): Insn {
    match s
    case LdAbs(size, k) => Insn(LD + SizeBits(size) + ABS, 0, 0, k)
    case LdInd(size, k) => Insn(LD + SizeBits(size) + IND, 0, 0, k)
    case LdLen => Insn(LD + LEN, 0, 0, 0)
    case LdxLen => Insn(LDX + LEN, 0, 0, 0)
    case LdxMsh(k) => Insn(LDX + 0x10 + MSH, 0, 0, k)
    case LdImm(k) => Insn(LD + IMM, 0, 0, k)
    case LdxImm(k) => Insn(LDX + IMM, 0, 0, k)
    case LdMem(k) => Insn(LD + MEM, 0, 0, k)
    case LdxMem(k) => Insn(LDX + MEM, 0, 0, k)
    case St(k) => Insn(ST, 0, 0, k)
    case Stx(k) => Insn(STX, 0, 0, k)
    case AluK(op, k) => Insn(ALU + AluBits(op), 0, 0, k)
    case AluX(op) => Insn(ALU + AluBits(op) + 8, 0, 0, 0)
    case Neg => Insn(ALU + 0x80, 0, 0, 0)
    case Tax => Insn(MISC, 0, 0, 0)
    case Txa => Insn(MISC + 0x80, 0, 0, 0)
  }

  function DecodeAlu(op: nat, k: u32, withX: bool): Op {
    match op
    case 0x00 => Plain(if withX then AluX(Add) else AluK(Add, k))
    case 0x10 => Plain(if withX then AluX(Sub) else AluK(Sub, k))
    case 0x20 => Plain(if withX then AluX(Mul) else AluK(Mul, k))
    case 0x30 => Plain(if withX then AluX(Div) else AluK(Div, k))
    case 0x40 => Plain(if withX then AluX(BitOr) else AluK(BitOr, k))
    case 0x50 => Plain(if withX then AluX(BitAnd) else AluK(BitAnd, k))
    case 0x60 => Plain(if withX then AluX(Lsh) else AluK(Lsh, k))
    case 0x70 => Plain(if withX then AluX(Rsh) else AluK(Rsh, k))
    case 0x90 => Plain(if withX then AluX(Mod) else AluK(Mod, k))
    case 0xa0 => Plain(if withX then AluX(BitXor) else AluK(BitXor, k))
    case 0x80 => if withX then Bad else Plain(Neg)
    case _ => Bad
  }

  function DecodeJump(op: nat, i: Insn, withX: bool): Op {
    match op
    case 0x00 => if withX then Bad else Ja(i.k)
    case 0x10 => Jump(Eq, withX, i.k, i.jt, i.jf)
    case 0x20 => Jump(Gt, withX, i.k, i.jt, i.jf)
    case 0x30 => Jump(Ge, withX, i.k, i.jt, i.jf)
    case 0x40 => Jump(Set, withX, i.k, i.jt, i.jf)
    case _ => Bad
  }

  /** The labels of the interpreter's switch. */
  function Decode(i: Insn): Op {
    if i.code >= 0x100 then Bad
    else match ClassOf(i.code)
      case 0x00 => (match i.code
        case 0x00 => Plain(LdImm(i.k))
        case 0x20 => Plain(LdAbs(Word, i.k))
        case 0x28 => Plain(LdAbs(Half, i.k))
        case 0x30 => Plain(LdAbs(Byte, i.k))
        case 0x40 => Plain(LdInd(Word, i.k))
        case 0x48 => Plain(LdInd(Half, i.k))
        case 0x50 => Plain(LdInd(Byte, i.k))
        case 0x60 => Plain(LdMem(i.k))
        case 0x80 => Plain(LdLen)
        case _ => Bad)
      case 0x01 => (match i.code
        case 0x01 => Plain(LdxImm(i.k))
        case 0x61 => Plain(LdxMem(i.k))
        case 0x81 => Plain(LdxLen)
        case 0xb1 => Plain(LdxMsh(i.k))
        case _ => Bad)
      case 0x02 => if i.code == 0x02 then Plain(St(i.k)) else Bad
      case 0x03 => if i.code == 0x03 then Plain(Stx(i.k)) else Bad
      case 0x04 => DecodeAlu(OpOf(i.code), i.k, SrcOf(i.code) == 8)
      case 0x05 => DecodeJump(OpOf(i.code), i, SrcOf(i.code) == 8)
      case 0x06 => if i.code == 0x06 then RetK(i.k) else if i.code == 0x16 then RetA else Bad
      case 0x07 => if i.code == 0x07 then Plain(Tax) else if i.code == 0x87 then Plain(Txa) else Bad
  }

  /** The encoding loses nothing. */
  lemma DecodeEncode(s: Stmt)
    ensures Decode(Encode(s)) == Plain(s)
  {
    match s {
      case LdAbs(size, k) => { match size { case Byte => case Half => case Word => } }
      case LdInd(size, k) => { match size { case Byte => case Half => case Word => } }
      case AluK(op, k) => DecodeEncodeAlu(op, k, false);
      case AluX(op) => DecodeEncodeAlu(op, 0, true);
      case _ =>
    }
  }

  lemma DecodeEncodeAlu(op: AluOp, k: u32, withX: bool)
    ensures var i := Insn(ALU + AluBits(op) + (if withX then 8 else 0), 0, 0, k);
            Decode(i) == Plain(if withX then AluX(op) else AluK(op, k))
  {
    var i := Insn(ALU + AluBits(op) + (if withX then 8 else 0), 0, 0, k);
    assert ClassOf(i.code) == ALU && OpOf(i.code) == AluBits(op) && (SrcOf(i.code) == 8 <==> withX);
    match op {
      case Add => case Sub => case Mul => case Div => case Mod =>
      case BitAnd => case BitOr => case BitXor => case Lsh => case Rsh =>
    }
  }
}
