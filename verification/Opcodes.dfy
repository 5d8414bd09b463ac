/** The labels of pcap_filter's switch as the numbers that bpf.h makes them, and what each of them does. */
module Opcodes {
  import opened Words
  import opened Bpf
  import opened Interpreter
  import opened Validator

  /** On to the next instruction, with this value in the accumulator. */
  ghost predicate SetsA(pc: nat, r: Regs, t: Status, v: int) {
    t.Running? && t == Running(pc + 1, r.(a := t.regs.a)) && t.regs.a == v
  }

  ghost predicate SetsX(pc: nat, r: Regs, t: Status, v: int) {
    t.Running? && t == Running(pc + 1, r.(x := t.regs.x)) && t.regs.x == v
  }

  /** Loads n octets from off on, or rejects where the packet ends before. */
  ghost predicate Fetches(pc: nat, r: Regs, p: Packet, t: Status, off: nat, n: nat) {
    if off + n <= |p.data| then SetsA(pc, r, t, Base256(p.data[off..off + n])) else t == Stopped(OutsidePacket)
  }

  /** Goes on behind so many of the instructions that follow. */
  ghost predicate Skips(pc: nat, r: Regs, t: Status, n: int) {
    t == if pc + 1 + n >= 0 then Running(pc + 1 + n, r) else OffProgram
  }

  /** Loads, stores, returns and transfers between the registers. */
  ghost predicate Moves(code: nat, k: u32, pc: nat, r: Regs, p: Packet, t: Status) {
    match code
    case 0x00 => SetsA(pc, r, t, k)
    case 0x01 => SetsX(pc, r, t, k)
    case 0x02 => if k < 16 then t == Running(pc + 1, r.(mem := r.mem[k := r.a])) else t == Stopped(Undefined)
    case 0x03 => if k < 16 then t == Running(pc + 1, r.(mem := r.mem[k := r.x])) else t == Stopped(Undefined)
    case 0x06 => t == Returned(k)
    case 0x07 => SetsX(pc, r, t, r.a)
    case 0x16 => t == Returned(r.a)
    case 0x20 => Fetches(pc, r, p, t, k, 4)
    case 0x28 => Fetches(pc, r, p, t, k, 2)
    case 0x30 => Fetches(pc, r, p, t, k, 1)
    case 0x40 => Fetches(pc, r, p, t, r.x + k, 4)
    case 0x48 => Fetches(pc, r, p, t, r.x + k, 2)
    case 0x50 => Fetches(pc, r, p, t, r.x + k, 1)
    case 0x60 => if k < 16 then SetsA(pc, r, t, r.mem[k]) else t == Stopped(Undefined)
    case 0x61 => if k < 16 then SetsX(pc, r, t, r.mem[k]) else t == Stopped(Undefined)
    case 0x80 => SetsA(pc, r, t, p.wirelen)
    case 0x81 => SetsX(pc, r, t, p.wirelen)
    case 0x87 => SetsA(pc, r, t, r.x)
    case 0xb1 => if k < |p.data| then SetsX(pc, r, t, p.data[k] % 16 * 4) else t == Stopped(OutsidePacket)
    case _ => false
  }

  /** Arithmetic with the constant of the instruction. */
  ghost predicate Computes(code: nat, k: u32, pc: nat, r: Regs, t: Status) {
    match code
    case 0x04 => SetsA(pc, r, t, (r.a + k) % 0x1_0000_0000)
    case 0x14 => SetsA(pc, r, t, (r.a - k) % 0x1_0000_0000)
    case 0x24 => SetsA(pc, r, t, (r.a * k) % 0x1_0000_0000)
    case 0x34 => if k != 0 then SetsA(pc, r, t, r.a / k) else t == Stopped(Undefined)
    case 0x44 => SetsA(pc, r, t, Or(r.a, k))
    case 0x54 => SetsA(pc, r, t, And(r.a, k))
    case 0x64 => if k < 32 then SetsA(pc, r, t, (r.a * Pow2(k)) % 0x1_0000_0000) else t == Stopped(Undefined)
    case 0x74 => if k < 32 then SetsA(pc, r, t, r.a / Pow2(k)) else t == Stopped(Undefined)
    case 0x84 => SetsA(pc, r, t, (0 - r.a as int) % 0x1_0000_0000)
    case 0x94 => if k != 0 then SetsA(pc, r, t, r.a % k) else t == Stopped(Undefined)
    case 0xa4 => SetsA(pc, r, t, Xor(r.a, k))
    case _ => false
  }

  /** Arithmetic with the index register. */
  ghost predicate ComputesX(code: nat, pc: nat, r: Regs, t: Status) {
    match code
    case 0x0c => SetsA(pc, r, t, (r.a + r.x) % 0x1_0000_0000)
    case 0x1c => SetsA(pc, r, t, (r.a - r.x) % 0x1_0000_0000)
    case 0x2c => SetsA(pc, r, t, (r.a * r.x) % 0x1_0000_0000)
    case 0x3c => if r.x != 0 then SetsA(pc, r, t, r.a / r.x) else t == Stopped(ZeroDivisor)
    case 0x4c => SetsA(pc, r, t, Or(r.a, r.x))
    case 0x5c => SetsA(pc, r, t, And(r.a, r.x))
    case 0x6c => SetsA(pc, r, t, if r.x < 32 then (r.a * Pow2(r.x)) % 0x1_0000_0000 else 0)
    case 0x7c => SetsA(pc, r, t, if r.x < 32 then r.a / Pow2(r.x) else 0)
    case 0x9c => if r.x != 0 then SetsA(pc, r, t, r.a % r.x) else t == Stopped(ZeroDivisor)
    case 0xac => SetsA(pc, r, t, Xor(r.a, r.x))
    case _ => false
  }

  /** Jumps: the unconditional one is signed, the others choose between two counts of up to 255. */
  ghost predicate Jumps(i: Insn, pc: nat, r: Regs, t: Status) {
    match i.code
    case 0x05 => Skips(pc, r, t, if i.k < 0x8000_0000 then i.k else i.k - 0x1_0000_0000)
    case 0x15 => Skips(pc, r, t, if r.a == i.k then i.jt else i.jf)
    case 0x1d => Skips(pc, r, t, if r.a == r.x then i.jt else i.jf)
    case 0x25 => Skips(pc, r, t, if r.a > i.k then i.jt else i.jf)
    case 0x2d => Skips(pc, r, t, if r.a > r.x then i.jt else i.jf)
    case 0x35 => Skips(pc, r, t, if r.a >= i.k then i.jt else i.jf)
    case 0x3d => Skips(pc, r, t, if r.a >= r.x then i.jt else i.jf)
    case 0x45 => Skips(pc, r, t, if And(r.a, i.k) != 0 then i.jt else i.jf)
    case 0x4d => Skips(pc, r, t, if And(r.a, r.x) != 0 then i.jt else i.jf)
    case _ => false
  }

  predicate IsMove(code: nat) {
    code in {0x00, 0x01, 0x02, 0x03, 0x06, 0x07, 0x16, 0x20, 0x28, 0x30, 0x40, 0x48, 0x50, 0x60, 0x61, 0x80, 0x81, 0x87,
             0xb1}
  }

  predicate IsAluK(code: nat) {
    code in {0x04, 0x14, 0x24, 0x34, 0x44, 0x54, 0x64, 0x74, 0x84, 0x94, 0xa4}
  }

  predicate IsAluX(code: nat) {
    code in {0x0c, 0x1c, 0x2c, 0x3c, 0x4c, 0x5c, 0x6c, 0x7c, 0x9c, 0xac}
  }

  predicate IsJump(code: nat) {
    code in {0x05, 0x15, 0x1d, 0x25, 0x2d, 0x35, 0x3d, 0x45, 0x4d}
  }

  /** The interpreter's step at instruction i; a code that is no label aborts. */
  ghost predicate ByLabel(i: Insn, pc: nat, r: Regs, p: Packet, t: Status) {
    if IsMove(i.code) then Moves(i.code, i.k, pc, r, p, t)
    else if IsAluK(i.code) then Computes(i.code, i.k, pc, r, t)
    else if IsAluX(i.code) then ComputesX(i.code, pc, r, t)
    else if IsJump(i.code) then Jumps(i, pc, r, t)
    else t == Aborted
  }

  lemma MoveSteps(prog: seq<Insn>, pc: nat, r: Regs, p: Packet)
    requires pc < |prog| && IsMove(prog[pc].code)
    ensures Moves(prog[pc].code, prog[pc].k, pc, r, p, Step(prog, Running(pc, r), p))
  {
    FieldIsOctets(p.data, prog[pc].k);
    FieldIsOctets(p.data, r.x + prog[pc].k);
    hide Base256, Field;
  }

  function AluNamed(code: nat): AluOp {
    match code
    case 0x04 => Add case 0x14 => Sub case 0x24 => Mul case 0x34 => Div case 0x44 => BitOr
    case 0x54 => BitAnd case 0x64 => Lsh case 0x74 => Rsh case 0x94 => Mod case _ => BitXor
  }

  lemma AluLabels(i: Insn)
    requires IsAluK(i.code)
    ensures Decode(i) == Plain(if i.code == 0x84 then Neg else AluK(AluNamed(i.code), i.k))
  {
  }

  lemma AluXLabels(i: Insn)
    requires IsAluX(i.code)
    ensures Decode(i) == Plain(AluX(AluNamed(i.code - 8)))
  {
  }

  lemma AluSteps(prog: seq<Insn>, pc: nat, r: Regs, p: Packet)
    requires pc < |prog| && IsAluK(prog[pc].code)
    ensures Computes(prog[pc].code, prog[pc].k, pc, r, Step(prog, Running(pc, r), p))
  {
    AluLabels(prog[pc]);
    hide And, Or, Xor, Pow2, Decode;
  }

  lemma AluXSteps(prog: seq<Insn>, pc: nat, r: Regs, p: Packet)
    requires pc < |prog| && IsAluX(prog[pc].code)
    ensures ComputesX(prog[pc].code, pc, r, Step(prog, Running(pc, r), p))
  {
    AluXLabels(prog[pc]);
    hide And, Or, Xor, Pow2, Decode;
  }

  lemma JumpSteps(prog: seq<Insn>, pc: nat, r: Regs, p: Packet)
    requires pc < |prog| && IsJump(prog[pc].code)
    ensures Jumps(prog[pc], pc, r, Step(prog, Running(pc, r), p))
  {
    hide And;
  }

  lemma OtherCodes(i: Insn)
    requires !IsMove(i.code) && !IsAluK(i.code) && !IsAluX(i.code) && !IsJump(i.code)
    ensures Decode(i).Bad?
  {
    if i.code < 0x100 {
      CodeFields(i.code);
      if ClassOf(i.code) == 4 || ClassOf(i.code) == 5 {
        hide ClassOf, OpOf, SrcOf;
      }
    }
  }

  lemma CodeFields(code: nat)
    requires code < 0x100
    ensures code == OpOf(code) + SrcOf(code) + ClassOf(code) && SrcOf(code) in {0, 8}
  {
  }

  /** Every instruction does what the label with its number does. */
  lemma StepsByLabel(prog: seq<Insn>, pc: nat, r: Regs, p: Packet)
    requires pc < |prog|
    ensures ByLabel(prog[pc], pc, r, p, Step(prog, Running(pc, r), p))
  {
    if IsMove(prog[pc].code) {
      MoveSteps(prog, pc, r, p);
    } else if IsAluK(prog[pc].code) {
      AluSteps(prog, pc, r, p);
    } else if IsAluX(prog[pc].code) {
      AluXSteps(prog, pc, r, p);
    } else if IsJump(prog[pc].code) {
      JumpSteps(prog, pc, r, p);
    } else {
      OtherCodes(prog[pc]);
    }
    hide Exec, Moves, Computes, ComputesX, Jumps, IsMove, IsAluK, IsAluX, IsJump, Holds;
  }

  /**
   * What the static check asks of an instruction that the interpreter knows: no memory index beyond
   * 15, no division by a constant zero, and jumps that stay inside the program.
   */
  lemma AcceptedIff(at: nat, i: Insn, len: nat)
    requires at < len <= INT_MAX && !Decode(i).Bad?
    ensures InsnOk(at, i, len) <==>
      match Decode(i)
      case Plain(s) => Defined(s)
      case Ja(k) => 0 <= at + 1 + Signed(k) < len
      case Jump(_, _, _, jt, jf) => at + 1 + jt < len && at + 1 + jf < len
      case _ => true
  {
    if IsMove(i.code) {
      AcceptedMove(at, i, len);
    } else if IsAluK(i.code) {
      AluLabels(i);
      AcceptedAlu(at, i, len);
    } else if IsAluX(i.code) {
      AluXLabels(i);
      AcceptedAluX(at, i, len);
    } else if IsJump(i.code) {
      AcceptedJump(at, i, len);
    } else {
      OtherCodes(i);
    }
  }

  lemma AcceptedMove(at: nat, i: Insn, len: nat)
    requires IsMove(i.code)
    ensures InsnOk(at, i, len) <==> Decode(i).Plain? ==> Defined(Decode(i).s)
    ensures !Decode(i).Ja? && !Decode(i).Jump?
  {
  }

  lemma AcceptedAlu(at: nat, i: Insn, len: nat)
    requires IsAluK(i.code)
    ensures InsnOk(at, i, len) <==> (i.code == 0x34 || i.code == 0x94 ==> i.k != 0)
  {
  }

  lemma AcceptedAluX(at: nat, i: Insn, len: nat)
    requires IsAluX(i.code)
    ensures InsnOk(at, i, len)
  {
  }

  lemma AcceptedJump(at: nat, i: Insn, len: nat)
    requires at < len <= INT_MAX && IsJump(i.code)
    ensures i.code == 0x05 ==> Decode(i) == Ja(i.k) && (InsnOk(at, i, len) <==> 0 <= at + 1 + Signed(i.k) < len)
    ensures i.code != 0x05 ==> Decode(i).Jump? && Decode(i).jt == i.jt && Decode(i).jf == i.jf
    ensures i.code != 0x05 ==> (InsnOk(at, i, len) <==> at + 1 + i.jt < len && at + 1 + i.jf < len)
  {
    WrapSmall(at + 1 + i.k);
    WrapSmall(at + 1 + i.jt);
    WrapSmall(at + 1 + i.jf);
    hide Wrap;
  }
}
