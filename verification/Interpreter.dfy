/** The filter machine: its steps, the C loop that runs it, and what more packet data can change. */
module Interpreter {
  import opened Words
  import opened Bpf

  /** A run in progress or its end. Aborted is the switch's default; OffProgram is a fetch outside the program. */
  datatype Status =
    | Running(pc: nat, regs: Regs)
    | Returned(v: u32)
    | Stopped(why: Stop)
    | Aborted
    | OffProgram

  /** A 32-bit word as a two's-complement integer. */
  function Signed(k: u32): int {
    if k < 0x8000_0000 then k else k - WORD
  }

  function Goto(pc: int, r: Regs): Status {
    if pc >= 0 then Running(pc, r) else OffProgram
  }

  /** One instruction. */
  function Step(prog: seq<Insn>, s: Status, p: Packet): Status {
    if !s.Running? then s
    else if s.pc >= |prog| then OffProgram
    else
      match Decode(prog[s.pc])
      case Plain(op) =>
        (match Exec(op, s.regs, p)
         case Next(r) => Running(s.pc + 1, r)
         case Halt(why) => Stopped(why))
      case RetK(k) => Returned(k)
      case RetA => Returned(s.regs.a)
      case Ja(k) => Goto(s.pc + 1 + Signed(k), s.regs)
      case Jump(cond, withX, k, jt, jf) =>
        Running(s.pc + 1 + (if Holds(cond, s.regs.a, if withX then s.regs.x else k) then jt else jf), s.regs)
      case Bad => Aborted
  }

  function Steps(prog: seq<Insn>, s: Status, p: Packet, n: nat): Status
    decreases n
  {
    if n == 0 then s else Steps(prog, Step(prog, s, p), p, n - 1)
  }

  function Start(mem: Scratch): Status {
    Running(0, Regs(0, 0, mem))
  }

  // ---- The C loop ------------------------------------------------------------------------

  class Machine {
    var A: u32
    var X: u32
    const mem: array<u32>

    constructor (mem0: Scratch)
      ensures mem.Length == MEMWORDS && fresh(mem) && Contents() == Regs(0, 0, mem0)
    {
      A, X := 0, 0;
      mem := new u32[MEMWORDS](i requires 0 <= i < MEMWORDS => mem0[i]);
      new;
      assert mem[..] == mem0;
    }

    ghost function Contents(): Regs
      requires mem.Length == MEMWORDS
      reads this, mem
    {
      Regs(A, X, mem[..])
    }

    /** A load of size bytes at an absolute offset, with the C code's unsigned tests. */
    method LoadAbs(size: Size, k: u32, p: Packet) returns (ok: bool)
      requires mem.Length == MEMWORDS
      modifies `A
      ensures Loaded(old(Contents()), Contents(), LoadA(old(Contents()), p, k, size), ok)
      ensures Reads(p.data, k, size, ok, A)
    {
      FieldIsOctets(p.data, k);
      hide Base256;
      var buflen := |p.data|;
      match size {
        case Word => if k > buflen || 4 > buflen - k { return false; }
        case Half => if k > buflen || 2 > buflen - k { return false; }
        case Byte => if k >= buflen { return false; }
      }
      A := Field(p.data, k, size);
      ok := true;
    }

    /** A load at X + k. Each size has its own test; X + k is a 32-bit sum. */
    method LoadInd(size: Size, pck: u32, p: Packet) returns (ok: bool)
      requires mem.Length == MEMWORDS
      modifies `A
      ensures Loaded(old(Contents()), Contents(), LoadA(old(Contents()), p, old(X) + pck, size), ok)
      ensures Reads(p.data, X + pck, size, ok, A)
    {
      FieldIsOctets(p.data, X + pck);
      hide Base256;
      var buflen := |p.data|;
      var k := Wrap(X + pck);
      WrapSmall(X + pck);
      match size {
        case Word => if pck > buflen || X > buflen - pck || 4 > Wrap(buflen - k) { return false; }
        case Half => if X > buflen || pck > buflen - X || 2 > Wrap(buflen - k) { return false; }
        case Byte => if pck >= buflen || X >= buflen - pck { return false; }
      }
      A := Field(p.data, k, size);
      ok := true;
    }

    method Alu(op: AluOp, x: u32)
      requires mem.Length == MEMWORDS && (op in {Div, Mod} ==> x != 0)
      modifies `A
      ensures A == Bpf.Alu(op, old(A), x)
    {
      match op {
        case Add => A := Wrap(A + x);
        case Sub => A := Wrap(A - x);
        case Mul => A := Wrap(A * x);
        case Div => A := Quotient(A, x);
        case Mod => A := A % x;
        case BitAnd => A := And32(A, x);
        case BitOr => A := Or32(A, x);
        case BitXor => A := Xor32(A, x);
        case Lsh => if x < 32 { A := Wrap(A * Pow2(x)); } else { A := 0; }
        case Rsh => if x < 32 { A := Quotient(A, Pow2(x)); } else { A := 0; }
      }
    }

    /** The arms of the switch that go on to the next instruction. */
    method Execute(s: Stmt, p: Packet) returns (ok: bool, why: Stop)
      requires mem.Length == MEMWORDS
      modifies this, mem
      ensures ok ==> Exec(s, old(Contents()), p) == Next(Contents())
      ensures !ok ==> Exec(s, old(Contents()), p) == Halt(why)
    {
      ok, why := true, OutsidePacket;
      match s {
        case LdAbs(size, k) => ok := LoadAbs(size, k, p);
        case LdInd(size, k) => ok := LoadInd(size, k, p);
        case LdLen => A := p.wirelen;
        case LdxLen => X := p.wirelen;
        case LdxMsh(k) =>
          if k >= |p.data| { return false, OutsidePacket; }
          LowNibble(p.data[k]);
          X := 4 * And32(p.data[k], 0xf);
        case LdImm(k) => A := k;
        case LdxImm(k) => X := k;
        case LdMem(k) => if k >= MEMWORDS { return false, Undefined; } A := mem[k];
        case LdxMem(k) => if k >= MEMWORDS { return false, Undefined; } X := mem[k];
        case St(k) => if k >= MEMWORDS { return false, Undefined; } mem[k] := A;
        case Stx(k) => if k >= MEMWORDS { return false, Undefined; } mem[k] := X;
        case AluK(op, k) =>
          if (op in {Div, Mod} && k == 0) || (op in {Lsh, Rsh} && k >= 32) { return false, Undefined; }
          Alu(op, k);
        case AluX(op) =>
          if op in {Div, Mod} && X == 0 { return false, ZeroDivisor; }
          Alu(op, X);
        case Neg => A := Wrap(0 - A as int);
        case Tax => X := A;
        case Txa => A := X;
      }
    }
  }

  /** What a load leaves behind, against the load with unbounded offsets. */
  ghost predicate Loaded(before: Regs, after: Regs, e: Effect, ok: bool) {
    if ok then e == Next(after) else e == Halt(OutsidePacket)
  }

  lemma WrapSmall(n: nat)
    ensures n < WORD ==> Wrap(n) == n
    ensures WORD <= n < 2 * WORD ==> Wrap(n) == n - WORD
  {
    if n < WORD { ModUnique(n, WORD, 0, n); } else if n < 2 * WORD { ModUnique(n, WORD, 1, n - WORD); }
  }

  /** The program given to the interpreter; a null pointer accepts everything. */
  datatype Program = NoFilter | Code(insns: seq<Insn>)

  function FinalOf(prog: Program, p: Packet, mem0: Scratch, fuel: nat): Status {
    match prog
    case NoFilter => Returned(0xffffffff)
    case Code(insns) => Steps(insns, Start(mem0), p, fuel)
  }

  /** pcap_filter, cut off after `fuel` instructions. The scratch memory starts with arbitrary contents. */
  method PcapFilter(prog: Program, p: Packet, mem0: Scratch, fuel: nat) returns (s: Status)
    ensures s == FinalOf(prog, p, mem0, fuel)
  {
    hide Exec, Holds, Decode, Alu, Field;
    if prog.NoFilter? { return Returned(0xffffffff); }
    var m := new Machine(mem0);
    var pc: int := 0;
    var n := 0;
    while n < fuel
      invariant 0 <= n <= fuel && pc >= 0 && m.mem.Length == MEMWORDS && fresh(m) && fresh(m.mem)
      invariant Steps(prog.insns, Running(pc, m.Contents()), p, fuel - n) == FinalOf(prog, p, mem0, fuel)
    {
      ghost var now := Running(pc, m.Contents());
      if pc >= |prog.insns| {
        Finished(prog.insns, OffProgram, p, fuel - n - 1);
        return OffProgram;
      }
      var i := prog.insns[pc];
      match Decode(i) {
        case Plain(op) =>
          var ok, why := m.Execute(op, p);
          if !ok {
            Finished(prog.insns, Stopped(why), p, fuel - n - 1);
            return Stopped(why);
          }
          pc := pc + 1;
        case RetK(k) =>
          Finished(prog.insns, Returned(k), p, fuel - n - 1);
          return Returned(k);
        case RetA =>
          Finished(prog.insns, Returned(m.A), p, fuel - n - 1);
          return Returned(m.A);
        case Ja(k) =>
          pc := pc + Signed(k) + 1;
          if pc < 0 {
            Finished(prog.insns, OffProgram, p, fuel - n - 1);
            return OffProgram;
          }
        case Jump(cond, withX, k, jt, jf) =>
          pc := pc + (if Holds(cond, m.A, if withX then m.X else k) then jt else jf) + 1;
        case Bad =>
          Finished(prog.insns, Aborted, p, fuel - n - 1);
          return Aborted;
      }
      n := n + 1;
    }
    s := Running(pc, Regs(m.A, m.X, m.mem[..]));
  }

  lemma {:induction false} Finished(prog: seq<Insn>, s: Status, p: Packet, n: nat)
    requires !s.Running?
    ensures Steps(prog, s, p, n) == s
    decreases n
  {
    if n > 0 { Finished(prog, s, p, n - 1); }
  }

  // ---- More packet data -------------------------------------------------------------------

  /** q is p with more of the packet captured. */
  ghost predicate Extends(p: Packet, q: Packet) {
    p.data <= q.data && p.wirelen == q.wirelen
  }

  lemma ExecExtended(s: Stmt, r: Regs, p: Packet, q: Packet)
    requires Extends(p, q) && Exec(s, r, p) != Halt(OutsidePacket)
    ensures Exec(s, r, q) == Exec(s, r, p)
  {
  }

  /** A run that never fails a packet bounds check goes the same way on every longer capture. */
  lemma {:induction false} SnapshotMonotone(prog: seq<Insn>, s: Status, p: Packet, q: Packet, n: nat)
    requires Extends(p, q) && Steps(prog, s, p, n) != Stopped(OutsidePacket)
    ensures Steps(prog, s, q, n) == Steps(prog, s, p, n)
    decreases n
  {
    if n > 0 {
      var t := Step(prog, s, p);
      if t == Stopped(OutsidePacket) {
        Finished(prog, t, p, n - 1);
      } else if s.Running? && s.pc < |prog| && Decode(prog[s.pc]).Plain? {
        ExecExtended(Decode(prog[s.pc]).s, s.regs, p, q);
        SnapshotMonotone(prog, t, p, q, n - 1);
      } else {
        SnapshotMonotone(prog, t, p, q, n - 1);
      }
    }
  }
}
