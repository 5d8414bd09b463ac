/** Compiling arithmetic: register allocation, the code generated, and what it computes. */
module Arithmetic {
  import opened Words
  import opened Bpf
  import opened Conditions
  import opened BlockGraph
  import opened Codegen
  import opened FieldTests
  import opened Protocols

  // ---- Expressions and their values ---------------------------------------------

  datatype Layer = Link | Net(net: NetProto) | Tran(tran: TranProto)

  datatype AExpr =
    | Num(k: u32)
    | Len
    | Load(layer: Layer, index: AExpr, size: u32)
    | Minus(a: AExpr)
    | Binary(op: AluOp, a: AExpr, b: AExpr)

  /** A value, or the end of the run. */
  datatype Val = Val(v: u32) | Fail(why: Stop)

  function SizeOf(n: u32): Size
    requires n in {1, 2, 4}
  {
    if n == 1 then Byte else if n == 2 then Half else Word
  }

  /** Every load has a size the language allows. */
  predicate Supported(e: AExpr) {
    match e
    case Num(_) => true
    case Len => true
    case Load(_, i, n) => n in {1, 2, 4} && Supported(i)
    case Minus(a) => Supported(a)
    case Binary(_, a, b) => Supported(a) && Supported(b)
  }

  function ItemAt(p: Packet, off: nat, size: Size): Val {
    if off + Width(size) <= |p.data| then Val(Field(p.data, off, size)) else Fail(OutsidePacket)
  }

  /** The item at an offset into a layer of an Ethernet frame. The transport layer starts after the IPv4 header,
      whose length is four times the low half of its first byte. */
  function Item(p: Packet, layer: Layer, off: u32, size: Size): Val {
    match layer
    case Link => ItemAt(p, off, size)
    case Net(_) => ItemAt(p, off + NET_AT, size)
    case Tran(_) =>
      if NET_AT < |p.data| then ItemAt(p, Wrap(4 * (p.data[NET_AT] % 16) + off) + NET_AT, size)
      else Fail(OutsidePacket)
  }

  /** The value modulo 2^32; a load outside the packet or a zero divisor ends the run. */
  function ValueOf(e: AExpr, p: Packet): Val
    requires Supported(e)
  {
    match e
    case Num(k) => Val(k)
    case Len => Val(p.wirelen)
    case Load(layer, i, n) =>
      (match ValueOf(i, p)
       case Val(off) => Item(p, layer, off, SizeOf(n))
       case f => f)
    case Minus(a) =>
      (match ValueOf(a, p)
       case Val(v) => Val(Wrap(0 - v as int))
       case f => f)
    case Binary(op, a, b) =>
      match ValueOf(a, p)
      case Fail(why) => Fail(why)
      case Val(va) =>
        match ValueOf(b, p)
        case Fail(why) => Fail(why)
        case Val(vb) => if (op == Div || op == Mod) && vb == 0 then Fail(ZeroDivisor) else Val(Alu(op, va, vb))
  }

  /** How many free registers the code generator needs. */
  function Need(e: AExpr): nat {
    match e
    case Num(_) => 1
    case Len => 1
    case Load(_, i, _) => if Need(i) < 2 then 2 else Need(i)
    case Minus(a) => Need(a)
    case Binary(_, a, b) => if Need(a) < 1 + Need(b) then 1 + Need(b) else Need(a)
  }

  /** The statements of an expression's code. */
  function CodeLength(e: AExpr): nat {
    match e
    case Num(_) => 2
    case Len => 2
    case Load(layer, i, _) => CodeLength(i) + (if layer.Tran? then 6 else 3)
    case Minus(a) => CodeLength(a) + 3
    case Binary(_, a, b) => CodeLength(a) + CodeLength(b) + 4
  }

  /** The first statement of an expression's code: its leftmost operand's. */
  function FirstOf(e: AExpr): Stmt {
    match e
    case Num(k) => LdImm(k)
    case Len => LdLen
    case Load(_, i, _) => FirstOf(i)
    case Minus(a) => FirstOf(a)
    case Binary(_, a, _) => FirstOf(a)
  }

  /** The constant check of a binary operation, which looks at this statement of the right operand. */
  predicate Refused(op: AluOp, first: Stmt) {
    first.LdImm? && (((op == Div || op == Mod) && first.k == 0) || ((op == Lsh || op == Rsh) && first.k > 31))
  }

  /** No operation inside is refused. */
  predicate ConstantsPass(e: AExpr) {
    match e
    case Num(_) => true
    case Len => true
    case Load(_, i, _) => ConstantsPass(i)
    case Minus(a) => ConstantsPass(a)
    case Binary(op, a, b) => ConstantsPass(a) && ConstantsPass(b) && !Refused(op, FirstOf(b))
  }

  // ---- What code computes ---------------------------------------------------------

  /** Running s leaves the value of e in register reg and leaves the registers in keep alone,
      or stops where e has no value. */
  ghost predicate Computes(s: seq<Stmt>, reg: nat, e: AExpr, keep: set<nat>)
    requires Supported(e)
  {
    reg < MEMWORDS && forall r: Regs, p: Packet :: ComputedBy(ExecAll(s, r, p), r, ValueOf(e, p), reg, keep)
  }

  ghost predicate ComputedBy(end: Effect, r: Regs, value: Val, reg: nat, keep: set<nat>)
    requires reg < MEMWORDS
  {
    match end
    case Next(r') => value == Val(r'.mem[reg]) && KeepsRegs(r, r', keep)
    case Halt(why) => value == Fail(why)
  }

  ghost predicate KeepsRegs(r: Regs, r': Regs, keep: set<nat>) {
    forall k :: k in keep && k < MEMWORDS ==> r'.mem[k] == r.mem[k]
  }

  /** A constant or the packet's length, loaded and stored. */
  lemma LeafComputes(first: Stmt, reg: nat, e: AExpr, keep: set<nat>)
    requires (e == Len && first == LdLen) || (e.Num? && first == LdImm(e.k))
    requires reg < MEMWORDS && reg !in keep
    ensures Computes([first] + [St(reg)], reg, e, keep)
  {
    forall r: Regs, p: Packet ensures ComputedBy(ExecAll([first] + [St(reg)], r, p), r, ValueOf(e, p), reg, keep) {
      ExecAllAppend([first], [St(reg)], r, p);
      ExecOne(first, r, p);
      ExecOne(St(reg), Exec(first, r, p).regs, p);
    }
  }

  /** xfer_to_a, negate, store back. */
  lemma NegComputes(s: seq<Stmt>, reg: nat, a: AExpr, keep: set<nat>)
    requires Supported(a) && Computes(s, reg, a, keep) && reg !in keep
    ensures Computes(s + [LdMem(reg)] + [Neg] + [St(reg)], reg, Minus(a), keep)
  {
    var t := s + [LdMem(reg)] + [Neg] + [St(reg)];
    forall r: Regs, p: Packet ensures ComputedBy(ExecAll(t, r, p), r, ValueOf(Minus(a), p), reg, keep) {
      assert ComputedBy(ExecAll(s, r, p), r, ValueOf(a, p), reg, keep);
      assert t == s + [LdMem(reg), Neg, St(reg)];
      ExecAllAppend(s, [LdMem(reg), Neg, St(reg)], r, p);
      if ExecAll(s, r, p).Next? {
        var r1 := ExecAll(s, r, p).regs;
        var r2 := r1.(a := r1.mem[reg]);
        var r3 := r2.(a := Wrap(0 - r2.a as int));
        ExecThree(LdMem(reg), Neg, St(reg), r1, r2, r3, p);
      }
    }
  }

  lemma ExecThree(s1: Stmt, s2: Stmt, s3: Stmt, r: Regs, r1: Regs, r2: Regs, p: Packet)
    requires Exec(s1, r, p) == Next(r1) && Exec(s2, r1, p) == Next(r2)
    ensures ExecAll([s1, s2, s3], r, p) == Exec(s3, r2, p)
  {
    assert [s1, s2, s3] == [s1] + [s2] + [s3];
    ExecAllAppend([s1] + [s2], [s3], r, p);
    ExecAllAppend([s1], [s2], r, p);
    ExecOne(s1, r, p);
    ExecOne(s2, r1, p);
    ExecOne(s3, r2, p);
  }

  /** Both operands' code, then the right operand to X and the left to A. */
  function OperandCode(s0: seq<Stmt>, r0: nat, s1: seq<Stmt>, r1: nat): seq<Stmt>
    requires r0 < MEMWORDS && r1 < MEMWORDS
  {
    s0 + s1 + [LdxMem(r1), LdMem(r0)]
  }

  /** It ends with the left value in A and the right one in X, or stops at the first operand without a value. */
  ghost predicate OperandsIn(end: Effect, r: Regs, va: Val, vb: Val, keep: set<nat>) {
    match end
    case Next(r') => va == Val(r'.a) && vb == Val(r'.x) && KeepsRegs(r, r', keep)
    case Halt(why) => va == Fail(why) || (va.Val? && vb == Fail(why))
  }

  lemma OperandsRun(s0: seq<Stmt>, r0: nat, a: AExpr, s1: seq<Stmt>, r1: nat, b: AExpr, keep: set<nat>, r: Regs,
                    p: Packet)
    requires Supported(a) && Supported(b) && r0 < MEMWORDS && r1 < MEMWORDS
    requires Computes(s0, r0, a, keep) && Computes(s1, r1, b, keep + {r0})
    ensures OperandsIn(ExecAll(OperandCode(s0, r0, s1, r1), r, p), r, ValueOf(a, p), ValueOf(b, p), keep)
  {
    hide Computes, ExecAll, ValueOf;
    var load := [LdxMem(r1), LdMem(r0)];
    ComputesOne(s0, r0, a, keep, r, p);
    ExecAllAppend(s0 + s1, load, r, p);
    ExecAllAppend(s0, s1, r, p);
    if ExecAll(s0, r, p).Next? {
      var ra := ExecAll(s0, r, p).regs;
      ComputesOne(s1, r1, b, keep + {r0}, ra, p);
      if ExecAll(s1, ra, p).Next? {
        var rb := ExecAll(s1, ra, p).regs;
        ExecTwo(LdxMem(r1), LdMem(r0), rb, rb.(x := rb.mem[r1]), p);
      }
    }
  }

  /** The operands' code, the operation, and a store. */
  lemma BinaryComputes(s0: seq<Stmt>, r0: nat, a: AExpr, s1: seq<Stmt>, r1: nat, b: AExpr,
                       op: AluOp, reg: nat, keep: set<nat>)
    requires Supported(a) && Supported(b)
    requires Computes(s0, r0, a, keep) && Computes(s1, r1, b, keep + {r0})
    requires reg < MEMWORDS && reg !in keep
    ensures r0 < MEMWORDS && r1 < MEMWORDS
    ensures Computes(OperandCode(s0, r0, s1, r1) + [AluX(op)] + [St(reg)], reg, Binary(op, a, b), keep)
  {
    var t := OperandCode(s0, r0, s1, r1) + [AluX(op)] + [St(reg)];
    forall r: Regs, p: Packet ensures ComputedBy(ExecAll(t, r, p), r, ValueOf(Binary(op, a, b), p), reg, keep) {
      BinaryRun(s0, r0, a, s1, r1, b, op, reg, keep, r, p);
    }
  }

  lemma BinaryRun(s0: seq<Stmt>, r0: nat, a: AExpr, s1: seq<Stmt>, r1: nat, b: AExpr,
                  op: AluOp, reg: nat, keep: set<nat>, r: Regs, p: Packet)
    requires Supported(a) && Supported(b) && r0 < MEMWORDS && r1 < MEMWORDS
    requires Computes(s0, r0, a, keep) && Computes(s1, r1, b, keep + {r0})
    requires reg < MEMWORDS && reg !in keep
    ensures ComputedBy(ExecAll(OperandCode(s0, r0, s1, r1) + [AluX(op)] + [St(reg)], r, p),
                       r, ValueOf(Binary(op, a, b), p), reg, keep)
  {
    hide Alu, Computes, ExecAll, OperandCode;
    var code := OperandCode(s0, r0, s1, r1);
    OperandsRun(s0, r0, a, s1, r1, b, keep, r, p);
    ExecAllAppend(code + [AluX(op)], [St(reg)], r, p);
    ExecAllAppend(code, [AluX(op)], r, p);
    if ExecAll(code, r, p).Next? {
      var rl := ExecAll(code, r, p).regs;
      ExecOne(AluX(op), rl, p);
      if Exec(AluX(op), rl, p).Next? {
        ExecOne(St(reg), Exec(AluX(op), rl, p).regs, p);
      }
    }
  }

  lemma ComputesOne(s: seq<Stmt>, reg: nat, e: AExpr, keep: set<nat>, r: Regs, p: Packet)
    requires Supported(e) && Computes(s, reg, e, keep)
    ensures reg < MEMWORDS && ComputedBy(ExecAll(s, r, p), r, ValueOf(e, p), reg, keep)
  {
  }

  /** The statements that load an item whose offset is in a register. */
  function LoadItem(layer: Layer, reg: nat, size: Size): seq<Stmt>
    requires reg < MEMWORDS
  {
    match layer
    case Link => [LdxMem(reg), LdInd(size, 0)]
    case Net(_) => [LdxMem(reg), LdInd(size, NET_AT)]
    case Tran(_) => [LdxMsh(NET_AT), LdMem(reg), AluX(Add)] + [Tax, LdInd(size, NET_AT)]
  }

  lemma LoadItemRun(layer: Layer, reg: nat, size: Size, r: Regs, p: Packet)
    requires reg < MEMWORDS
    ensures match ExecAll(LoadItem(layer, reg, size), r, p)
            case Next(r') => Item(p, layer, r.mem[reg], size) == Val(r'.a) && r'.mem == r.mem
            case Halt(why) => Item(p, layer, r.mem[reg], size) == Fail(why)
  {
    hide ExecAll;
    var rx := r.(x := r.mem[reg]);
    match layer {
      case Link => ExecTwo(LdxMem(reg), LdInd(size, 0), r, rx, p);
      case Net(_) => ExecTwo(LdxMem(reg), LdInd(size, NET_AT), r, rx, p);
      case Tran(q) => TranItemRun(q, reg, size, r, p);
    }
  }

  lemma TranItemRun(q: TranProto, reg: nat, size: Size, r: Regs, p: Packet)
    requires reg < MEMWORDS
    ensures match ExecAll(LoadItem(Tran(q), reg, size), r, p)
            case Next(r') => Item(p, Tran(q), r.mem[reg], size) == Val(r'.a) && r'.mem == r.mem
            case Halt(why) => Item(p, Tran(q), r.mem[reg], size) == Fail(why)
  {
    hide ExecAll, Field, Alu;
    var head, tail := [LdxMsh(NET_AT), LdMem(reg), AluX(Add)], [Tax, LdInd(size, NET_AT)];
    ExecAllAppend(head, tail, r, p);
    TranOffsetRun(reg, r, p);
    if NET_AT < |p.data| {
      var off := Wrap(4 * (p.data[NET_AT] % 16) + r.mem[reg]);
      var r1 := r.(x := 4 * (p.data[NET_AT] % 16), a := off);
      ExecTwo(Tax, LdInd(size, NET_AT), r1, r1.(x := off), p);
    }
  }

  /** The offset from the start of the network layer, with the length of the IPv4 header added. */
  lemma TranOffsetRun(reg: nat, r: Regs, p: Packet)
    requires reg < MEMWORDS
    ensures ExecAll([LdxMsh(NET_AT), LdMem(reg), AluX(Add)], r, p) ==
            if NET_AT < |p.data| then
              Next(r.(x := 4 * (p.data[NET_AT] % 16), a := Wrap(4 * (p.data[NET_AT] % 16) + r.mem[reg])))
            else Halt(OutsidePacket)
  {
    hide ExecAll, Alu;
    if NET_AT < |p.data| {
      var r1 := r.(x := 4 * (p.data[NET_AT] % 16));
      var r2 := r1.(a := r1.mem[reg]);
      ExecThree(LdxMsh(NET_AT), LdMem(reg), AluX(Add), r, r1, r2, p);
      AddIs(r2.a, r2.x);
    } else {
      assert [LdxMsh(NET_AT), LdMem(reg), AluX(Add)] == [LdxMsh(NET_AT)] + [LdMem(reg), AluX(Add)];
      ExecAllAppend([LdxMsh(NET_AT)], [LdMem(reg), AluX(Add)], r, p);
      ExecOne(LdxMsh(NET_AT), r, p);
    }
  }

  lemma AddIs(a: u32, x: u32)
    ensures Alu(Add, a, x) == Wrap(a + x)
  {
  }

  lemma ExecTwo(s1: Stmt, s2: Stmt, r: Regs, r1: Regs, p: Packet)
    requires Exec(s1, r, p) == Next(r1)
    ensures ExecAll([s1, s2], r, p) == Exec(s2, r1, p)
  {
    assert [s1, s2] == [s1] + [s2];
    ExecAllAppend([s1], [s2], r, p);
    ExecOne(s1, r, p);
    ExecOne(s2, r1, p);
  }

  lemma LoadComputes(s: seq<Stmt>, r0: nat, i: AExpr, layer: Layer, n: u32, reg: nat, keep: set<nat>)
    requires Supported(i) && n in {1, 2, 4} && Computes(s, r0, i, keep) && reg < MEMWORDS && reg !in keep
    ensures r0 < MEMWORDS
    ensures Computes(s + LoadItem(layer, r0, SizeOf(n)) + [St(reg)], reg, Load(layer, i, n), keep)
  {
    var item := LoadItem(layer, r0, SizeOf(n));
    hide ExecAll, LoadItem, Item;
    forall r: Regs, p: Packet
      ensures ComputedBy(ExecAll(s + item + [St(reg)], r, p), r, ValueOf(Load(layer, i, n), p), reg, keep)
    {
      ComputesOne(s, r0, i, keep, r, p);
      ExecAllAppend(s + item, [St(reg)], r, p);
      ExecAllAppend(s, item, r, p);
      if ExecAll(s, r, p).Next? {
        var ri := ExecAll(s, r, p).regs;
        LoadItemRun(layer, r0, SizeOf(n), ri, p);
        if ExecAll(item, ri, p).Next? {
          ExecOne(St(reg), ExecAll(item, ri, p).regs, p);
        }
      }
    }
  }

  // ---- Protocol checks ----------------------------------------------------------------

  datatype Guard = NoGuard | Guard(e: Expr)

  /** The check in front of an operand once a load from a layer has been added. */
  function Guarded(inner: Guard, layer: Layer): Guard {
    match layer
    case Link => inner
    case Net(q) => if inner.Guard? then Guard(AndThen(inner.e, NetE(q))) else Guard(NetE(q))
    case Tran(q) =>
      var b := AndThen(TranE(q), FragE());
      Guard(AndThen(NetE(Ip), if inner.Guard? then AndThen(inner.e, b) else b))
  }

  /** The check an operand carries. The code generator keeps the left operand's check of a binary operator
      and drops the right operand's. */
  function GuardOf(e: AExpr): Guard {
    match e
    case Num(_) => NoGuard
    case Len => NoGuard
    case Load(layer, i, _) => Guarded(GuardOf(i), layer)
    case Minus(a) => GuardOf(a)
    case Binary(_, a, _) => GuardOf(a)
  }

  // ---- The generators -------------------------------------------------------------------

  /** The check carried in b is g. */
  ghost predicate Carries(b: Block?, g: Guard)
    reads if b == null then {} else {b} + (set x <- b.leaves)
  {
    match g case NoGuard => b == null case Guard(x) => b != null && b.Open() && b.expr == x
  }

  class Arth {
    var b: Block?
    var s: seq<Stmt>
    var regno: nat

    constructor (s: seq<Stmt>, regno: nat)
      ensures this.s == s && this.regno == regno && b == null
    {
      this.b, this.s, this.regno := null, s, regno;
    }

    /** Code for e, with its register outside keep and its protocol check. */
    ghost predicate For(e: AExpr, keep: set<nat>)
      reads this
      reads if b == null then {} else {b} + (set x <- b.leaves)
    {
      && Supported(e) && regno !in keep && s != [] && s[0] == FirstOf(e) && |s| == CodeLength(e) && AllDefined(s)
      && Computes(s, regno, e, keep)
      && Carries(b, GuardOf(e))
    }

    /** The blocks of the protocol check. */
    ghost function Blocks(): set<Block>
      reads this, b
    {
      if b == null then {} else set x <- b.leaves
    }
  }

  datatype Gen = Ok(a: Arth) | TooManyRegisters | BadConstant | BadSize | BadNetwork

  method GenLoadi(cs: CompilerState, val: u32) returns (g: Gen)
    requires cs.Valid()
    modifies cs`curreg, cs.regused
    ensures cs.Valid() && (g.Ok? || g.TooManyRegisters?)
    ensures g.TooManyRegisters? <==> old(cs.Free()) == 0
    ensures g.Ok? ==> Made(cs, g.a, Num(val), old(cs.Used()), old(cs.Free()))
    ensures g.Ok? ==> fresh(g.a) && g.a.b == null
  {
    var reg := cs.AllocReg();
    if reg == -1 { return TooManyRegisters; }
    LeafComputes(LdImm(val), reg, Num(val), old(cs.Used()));
    var a := new Arth([LdImm(val)] + [St(reg)], reg);
    g := Ok(a);
  }

  method GenLoadlen(cs: CompilerState) returns (g: Gen)
    requires cs.Valid()
    modifies cs`curreg, cs.regused
    ensures cs.Valid() && (g.Ok? || g.TooManyRegisters?)
    ensures g.TooManyRegisters? <==> old(cs.Free()) == 0
    ensures g.Ok? ==> Made(cs, g.a, Len, old(cs.Used()), old(cs.Free()))
    ensures g.Ok? ==> fresh(g.a) && g.a.b == null
  {
    var reg := cs.AllocReg();
    if reg == -1 { return TooManyRegisters; }
    LeafComputes(LdLen, reg, Len, old(cs.Used()));
    var a := new Arth([LdLen] + [St(reg)], reg);
    g := Ok(a);
  }

  /** a is code for e; of the registers only a's own is in use beyond those in keep. */
  ghost predicate Made(cs: CompilerState, a: Arth, e: AExpr, keep: set<nat>, free: nat)
    reads a, cs.regused
    reads if a.b == null then {} else {a.b} + (set x <- a.b.leaves)
  {
    a.For(e, keep) && Supported(e) && cs.Used() == keep + {a.regno} && cs.Free() == free - 1
  }

  method GenNeg(cs: CompilerState, a: Arth, ghost e: AExpr, ghost keep: set<nat>, ghost free: nat)
    requires Made(cs, a, e, keep, free)
    modifies a`s
    ensures Made(cs, a, Minus(e), keep, free)
  {
    NegComputes(a.s, a.regno, e, keep);
    a.s := a.s + [LdMem(a.regno)];
    a.s := a.s + [Neg];
    a.s := a.s + [St(a.regno)];
  }

  /** gen_arth. Its constant checks look only at the first statement of the right operand. */
  method GenArth(cs: CompilerState, op: AluOp, a0: Arth, a1: Arth,
                 ghost e0: AExpr, ghost e1: AExpr, ghost keep: set<nat>, ghost free: nat) returns (g: Gen)
    requires cs.Valid() && cs.IsEthernet() && a0 != a1
    requires a0.For(e0, keep) && a1.For(e1, keep + {a0.regno})
    requires cs.Used() == keep + {a0.regno, a1.regno} && cs.Free() + 2 == free
    modifies cs`curreg, cs.regused, a0`s, a0`regno, a1`s
    ensures cs.Valid() && (g.Ok? || g.BadConstant?)
    ensures g.BadConstant? <==> Refused(op, FirstOf(e1))
    ensures g.Ok? ==> g.a == a0 && Made(cs, a0, Binary(op, e0, e1), keep, free)
  {
    var first := a1.s[0];
    if first.LdImm? {
      if (op == Div && first.k == 0) || (op == Mod && first.k == 0) || ((op == Lsh || op == Rsh) && first.k > 31) {
        return BadConstant;
      }
    }
    hide Computes, Carries, Refused, FirstOf, GuardOf;
    var reg := TradeRegs(cs, a0.regno, a1.regno, keep);
    AppendOperation(op, a0, a1, reg, e0, e1, keep);
    g := Ok(a0);
  }

  /** The statements of a binary operation: both operands', then the operation, and a store to a register. */
  method AppendOperation(op: AluOp, a0: Arth, a1: Arth, reg: nat, ghost e0: AExpr, ghost e1: AExpr,
                         ghost keep: set<nat>)
    requires a0 != a1 && Supported(e0) && Supported(e1)
    requires Computes(a0.s, a0.regno, e0, keep) && Computes(a1.s, a1.regno, e1, keep + {a0.regno})
    requires reg < MEMWORDS && reg !in keep && a0.s != [] && AllDefined(a0.s) && AllDefined(a1.s)
    modifies a0`s, a0`regno, a1`s
    ensures a0.s != [] && a0.s[0] == old(a0.s[0]) && |a0.s| == old(|a0.s| + |a1.s|) + 4 && AllDefined(a0.s)
      && a0.regno == reg && Computes(a0.s, reg, Binary(op, e0, e1), keep)
  {
    hide Computes;
    ghost var s0, s1, r0, r1 := a0.s, a1.s, a0.regno, a1.regno;
    BinaryComputes(s0, r0, e0, s1, r1, e1, op, reg, keep);
    a1.s := a1.s + [LdxMem(a1.regno), LdMem(a0.regno), AluX(op)];
    a0.s := a0.s + a1.s;
    assert a0.s == OperandCode(s0, r0, s1, r1) + [AluX(op)];
    a0.regno := reg;
    a0.s := a0.s + [St(reg)];
  }

  /** The operands' registers are freed and one is taken for the result. */
  method TradeRegs(cs: CompilerState, r0: nat, r1: nat, ghost keep: set<nat>) returns (reg: nat)
    requires cs.Valid() && cs.IsEthernet()
    requires r0 !in keep && r1 !in keep && r0 != r1 && cs.Used() == keep + {r0, r1}
    modifies cs`curreg, cs.regused
    ensures cs.Valid() && reg < MEMWORDS && reg !in keep
    ensures cs.Used() == keep + {reg} && cs.Free() == old(cs.Free()) + 1
  {
    cs.FreeReg(r0);
    cs.FreeReg(r1);
    assert cs.Used() == keep;
    reg := cs.AllocReg();
  }

  /** gen_load_internal on Ethernet: the offset is in inst's register; the item replaces it in a new one,
      taken before the old one is freed. */
  method GenLoad(cs: CompilerState, layer: Layer, inst: Arth, size: u32,
                 ghost e: AExpr, ghost keep: set<nat>, ghost free: nat) returns (g: Gen)
    requires cs.Valid() && cs.IsEthernet() && Made(cs, inst, e, keep, free)
    modifies cs`curreg, cs.regused, inst, inst.Blocks()
    ensures cs.Valid() && !g.BadConstant? && !g.BadNetwork?
    ensures g.TooManyRegisters? <==> old(cs.Free()) == 0
    ensures g.BadSize? ==> size !in {1, 2, 4}
    ensures g.Ok? ==> g.a == inst && Made(cs, inst, Load(layer, e, size), keep, free)
    ensures g.Ok? ==> fresh(inst.Blocks() - old(inst.Blocks()))
  {
    hide Computes, Carries;
    var reg := cs.AllocReg();
    if reg == -1 { return TooManyRegisters; }
    cs.FreeReg(inst.regno);
    if size != 1 && size != 2 && size != 4 { return BadSize; }
    AppendItem(layer, inst, size, reg, e, keep);
    GuardLoad(cs, layer, inst, GuardOf(e));
    g := Ok(inst);
  }

  /** The statements of a load: the item whose offset is in inst's register goes to a new one. */
  method AppendItem(layer: Layer, inst: Arth, size: u32, reg: nat, ghost e: AExpr, ghost keep: set<nat>)
    requires size in {1, 2, 4} && Supported(e) && Computes(inst.s, inst.regno, e, keep)
    requires reg < MEMWORDS && reg !in keep && inst.s != [] && AllDefined(inst.s)
    modifies inst`s, inst`regno
    ensures inst.s != [] && inst.s[0] == old(inst.s[0]) && AllDefined(inst.s)
      && |inst.s| == old(|inst.s|) + (if layer.Tran? then 6 else 3) && inst.regno == reg
      && Computes(inst.s, reg, Load(layer, e, size), keep)
  {
    hide Computes;
    LoadComputes(inst.s, inst.regno, e, layer, size, reg, keep);
    inst.s := inst.s + LoadItem(layer, inst.regno, SizeOf(size));
    inst.regno := reg;
    inst.s := inst.s + [St(reg)];
  }

  /** The protocol check of a load, ANDed after the check of its offset. */
  method GuardLoad(cs: CompilerState, layer: Layer, inst: Arth, ghost g: Guard)
    requires cs.Valid() && cs.IsEthernet() && Carries(inst.b, g)
    modifies inst`b, inst.Blocks()
    ensures Carries(inst.b, Guarded(g, layer))
    ensures fresh(inst.Blocks() - old(inst.Blocks()))
  {
    hide Shape, Untouched;
    match layer {
      case Link =>
      case Net(q) =>
        var b := GenLinktype(cs, q);
        if inst.b != null {
          GenAnd(inst.b, b);
        }
        inst.b := b;
      case Tran(q) =>
        inst.b := GuardTran(cs, q, inst.b, g);
    }
  }

  /** The check of a transport-layer load: IPv4, the offset's own check, the protocol, and a first fragment. */
  method GuardTran(cs: CompilerState, q: TranProto, inner: Block?, ghost g: Guard) returns (b: Block)
    requires cs.Valid() && cs.IsEthernet() && Carries(inner, g)
    modifies if inner == null then [] else inner.leaves
    ensures Carries(b, Guarded(g, Tran(q)))
    ensures fresh((set x <- b.leaves) - (if inner == null then {} else old(set x <- inner.leaves)))
  {
    hide Shape, Untouched;
    b := GenFirstTran(cs, q);
    if inner != null {
      GenAnd(inner, b);
    }
    var t := GenLinktype(cs, Ip);
    GenAnd(t, b);
  }

  method GenFirstTran(cs: CompilerState, q: TranProto) returns (b: Block)
    requires cs.Valid() && cs.IsEthernet()
    ensures Stands(b, AndThen(TranE(q), FragE())) && fresh(b.leaves)
  {
    hide Shape, Untouched;
    var t := GenTran(cs, q);
    b := GenIpfrag(cs);
    GenAnd(t, b);
  }
}
