/** The static check of filter programs and what it guarantees. */
module Validator {
  import opened Words
  import opened Bpf
  import opened Interpreter

  /** The check of one instruction, with the C code's 32-bit sums. */
  predicate InsnOk(i: nat, insn: Insn, len: nat) {
    var code := insn.code;
    match ClassOf(code)
    case 0x00 => LoadOk(insn)
    case 0x01 => LoadOk(insn)
    case 0x02 => insn.k < MEMWORDS
    case 0x03 => insn.k < MEMWORDS
    case 0x04 =>
      (match OpOf(code)
       case 0x00 => true case 0x10 => true case 0x20 => true
       case 0x40 => true case 0x50 => true case 0xa0 => true
       case 0x60 => true case 0x70 => true case 0x80 => true
       case 0x30 => !(SrcOf(code) == 0 && insn.k == 0)
       case 0x90 => !(SrcOf(code) == 0 && insn.k == 0)
       case _ => false)
    case 0x05 =>
      (match OpOf(code)
       case 0x00 => Wrap(i + 1 + insn.k) < len
       case 0x10 => JumpOk(i, insn, len)
       case 0x20 => JumpOk(i, insn, len)
       case 0x30 => JumpOk(i, insn, len)
       case 0x40 => JumpOk(i, insn, len)
       case _ => false)
    case 0x06 => true
    case 0x07 => true
  }

  predicate LoadOk(insn: Insn) {
    match ModeOf(insn.code)
    case 0x00 => true
    case 0x20 => true
    case 0x40 => true
    case 0xa0 => true
    case 0x60 => insn.k < MEMWORDS
    case 0x80 => true
    case _ => false
  }

  predicate JumpOk(i: nat, insn: Insn, len: nat) {
    Wrap(i + 1 + insn.jt) < len && Wrap(i + 1 + insn.jf) < len
  }

  predicate Valid(f: seq<Insn>) {
    && 1 <= |f|
    && (forall i :: 0 <= i < |f| ==> InsnOk(i, f[i], |f|))
    && ClassOf(f[|f| - 1].code) == RET
  }

  /** pcap_validate_filter. */
  method ValidateFilter(f: seq<Insn>) returns (ok: bool)
    ensures ok <==> Valid(f)
  {
    var len := |f|;
    if len < 1 { return false; }
    var i := 0;
    while i < len
      invariant 0 <= i <= len
      invariant forall j :: 0 <= j < i ==> InsnOk(j, f[j], len)
    {
      var code, k := f[i].code, f[i].k;
      match ClassOf(code) {
        case 0x00 => if !LoadOk(f[i]) { return false; }
        case 0x01 => if !LoadOk(f[i]) { return false; }
        case 0x02 => if k >= MEMWORDS { return false; }
        case 0x03 => if k >= MEMWORDS { return false; }
        case 0x04 =>
          match OpOf(code) {
            case 0x00 => case 0x10 => case 0x20 => case 0x40 => case 0x50 =>
            case 0xa0 => case 0x60 => case 0x70 => case 0x80 =>
            case 0x30 => if SrcOf(code) == 0 && k == 0 { return false; }
            case 0x90 => if SrcOf(code) == 0 && k == 0 { return false; }
            case _ => return false;
          }
        case 0x05 =>
          var from := i + 1;
          match OpOf(code) {
            case 0x00 => if Wrap(from + k) >= len { return false; }
            case 0x10 => if Wrap(from + f[i].jt) >= len || Wrap(from + f[i].jf) >= len { return false; }
            case 0x20 => if Wrap(from + f[i].jt) >= len || Wrap(from + f[i].jf) >= len { return false; }
            case 0x30 => if Wrap(from + f[i].jt) >= len || Wrap(from + f[i].jf) >= len { return false; }
            case 0x40 => if Wrap(from + f[i].jt) >= len || Wrap(from + f[i].jf) >= len { return false; }
            case _ => return false;
          }
        case 0x06 =>
        case 0x07 =>
      }
      i := i + 1;
    }
    ok := ClassOf(f[len - 1].code) == RET;
  }

  // ---- Soundness --------------------------------------------------------------------------

  /** A constant shift by 32 or more: undefined in C, and not checked. */
  predicate WideShift(i: Insn) {
    match Decode(i)
    case Plain(AluK(op, k)) => (op == Lsh || op == Rsh) && k >= 32
    case _ => false
  }

  lemma DefinedIfOk(i: nat, insn: Insn, len: nat)
    requires InsnOk(i, insn, len) && Decode(insn).Plain?
    ensures Defined(Decode(insn).s)
  {
    match ClassOf(insn.code) {
      case 0x00 => match insn.code { case 0x60 => assert ModeOf(0x60) == 0x60; case _ => }
      case 0x01 => match insn.code { case 0x61 => assert ModeOf(0x61) == 0x60; case _ => }
      case 0x04 => AluDefined(OpOf(insn.code), insn.k, SrcOf(insn.code) == 8);
      case _ =>
    }
  }

  lemma AluDefined(op: nat, k: u32, withX: bool)
    requires DecodeAlu(op, k, withX).Plain?
    requires op == 0x30 || op == 0x90 ==> withX || k != 0
    ensures Defined(DecodeAlu(op, k, withX).s)
  {
    match op {
      case 0x00 => case 0x10 => case 0x20 => case 0x30 => case 0x40 => case 0x50 =>
      case 0x60 => case 0x70 => case 0x90 => case 0xa0 => case 0x80 =>
      case _ =>
    }
  }

  /** The 32-bit sum of a jump: forward offsets do not wrap, and a wrapped sum is the signed jump backward. */
  lemma JumpTarget(i: nat, k: u32, len: nat)
    requires i < len <= INT_MAX && Wrap(i + 1 + k) < len
    ensures i + 1 + Signed(k) == Wrap(i + 1 + k)
  {
    WrapSmall(i + 1 + k);
  }

  /** One step of an accepted program stays inside it, and touches no bad memory and divides by no zero constant. */
  lemma StepInside(f: seq<Insn>, s: Status, p: Packet)
    requires Valid(f) && |f| <= INT_MAX && s.Running? && s.pc < |f|
    ensures Safe(f, Step(f, s, p)) || WideShift(f[s.pc])
  {
    var i := f[s.pc];
    assert InsnOk(s.pc, i, |f|);
    match Decode(i) {
      case Plain(op) =>
        DefinedIfOk(s.pc, i, |f|);
        LastIsReturn(f, s.pc);
      case Ja(k) => JumpTarget(s.pc, k, |f|);
      case Jump(cond, withX, k, jt, jf) =>
        WrapSmall(s.pc + 1 + jt);
        WrapSmall(s.pc + 1 + jf);
      case _ =>
    }
  }

  lemma LastIsReturn(f: seq<Insn>, i: nat)
    requires Valid(f) && i < |f| && Decode(f[i]).Plain?
    ensures i + 1 < |f|
  {
  }

  /** A status inside the program. */
  predicate Safe(f: seq<Insn>, s: Status) {
    match s
    case Running(pc, _) => pc < |f|
    case OffProgram => false
    case Stopped(why) => why != Undefined
    case _ => true
  }

  /** Validator soundness, over runs of any length and whatever the scratch memory held: an accepted program without
      wide constant shifts never leaves the program, never uses a bad memory index, never divides by a zero constant. */
  lemma {:induction false} ValidatedIsSafe(f: seq<Insn>, s: Status, p: Packet, n: nat)
    requires Valid(f) && |f| <= INT_MAX && Safe(f, s)
    requires forall i :: 0 <= i < |f| ==> !WideShift(f[i])
    ensures Safe(f, Steps(f, s, p, n))
    decreases n
  {
    if n > 0 {
      if s.Running? {
        StepInside(f, s, p);
      }
      ValidatedIsSafe(f, Step(f, s, p), p, n - 1);
    }
  }

  /** No unconditional jump goes backward. */
  predicate ForwardOnly(f: seq<Insn>) {
    forall i :: 0 <= i < |f| && Decode(f[i]).Ja? ==> Decode(f[i]).k < 0x8000_0000
  }

  /** Every jump goes forward, as the header comment has it. */
  ghost predicate StepsForward(f: seq<Insn>) {
    forall i: nat, r: Regs, p: Packet | i < |f| :: GoesOn(i, Step(f, Running(i, r), p))
  }

  /** Either the run ends or the program counter has grown. */
  predicate GoesOn(i: nat, s: Status) {
    s.Running? ==> s.pc > i
  }

  /** An accepted program has that property exactly if no unconditional jump has a negative offset. */
  lemma ForwardIff(f: seq<Insn>)
    requires Valid(f) && |f| <= INT_MAX
    ensures StepsForward(f) <==> ForwardOnly(f)
  {
    if i :| 0 <= i < |f| && Decode(f[i]).Ja? && Decode(f[i]).k >= 0x8000_0000 {
      var r := Regs(0, 0, seq(MEMWORDS, _ => 0));
      assert InsnOk(i, f[i], |f|);
      JaInside(f, i);
      assert !GoesOn(i, Step(f, Running(i, r), RawPacket([], 0)));
    } else {
      forall i: nat, r: Regs, p: Packet | i < |f| ensures GoesOn(i, Step(f, Running(i, r), p)) {
      }
    }
  }

  /** An accepted unconditional jump stays inside the program. */
  lemma JaInside(f: seq<Insn>, i: nat)
    requires Valid(f) && |f| <= INT_MAX && i < |f| && Decode(f[i]).Ja?
    ensures 0 <= i + 1 + Signed(Decode(f[i]).k) < |f|
  {
    assert InsnOk(i, f[i], |f|);
    JumpTarget(i, Decode(f[i]).k, |f|);
  }

  /** Then the program counter only grows, so the run ends within |f| steps. */
  lemma {:induction false} ForwardTerminates(f: seq<Insn>, s: Status, p: Packet, n: nat)
    requires Valid(f) && |f| <= INT_MAX && ForwardOnly(f)
    requires s.Running? ==> |f| <= s.pc + n
    ensures !Steps(f, s, p, n).Running? || (s.Running? && s.pc >= |f|)
    decreases n
  {
    if s.Running? && s.pc < |f| {
      assert Step(f, s, p).Running? ==> Step(f, s, p).pc > s.pc;
      StepInside(f, s, p);
      ForwardTerminates(f, Step(f, s, p), p, n - 1);
    } else if !s.Running? {
      Finished(f, s, p, n);
    }
  }

  /** The whole run of a forward-only accepted program. */
  lemma AcceptedRunEnds(f: seq<Insn>, p: Packet, mem: Scratch)
    requires Valid(f) && |f| <= INT_MAX && ForwardOnly(f)
    requires forall i :: 0 <= i < |f| ==> !WideShift(f[i])
    ensures var end := Steps(f, Start(mem), p, |f|);
            end.Returned? || end.Aborted? || end == Stopped(OutsidePacket) || end == Stopped(ZeroDivisor)
  {
    ForwardTerminates(f, Start(mem), p, |f|);
    ValidatedIsSafe(f, Start(mem), p, |f|);
  }

  /** The header comment asks for forward jumps, but backward ones are let through for the protocol-chain operation:
      the check accepts a program that never ends, a jump to itself. */
  function SelfLoop(): seq<Insn> {
    [Insn(JMP, 0, 0, 0xffff_ffff), Insn(RET, 0, 0, 0)]
  }

  lemma {:induction false} AcceptedButEndless(p: Packet, mem: Scratch, n: nat)
    ensures Valid(SelfLoop()) && !ForwardOnly(SelfLoop())
    ensures Steps(SelfLoop(), Start(mem), p, n) == Start(mem)
    decreases n
  {
    var f := SelfLoop();
    assert Decode(f[0]) == Ja(0xffff_ffff);
    WrapSmall(1 + 0xffff_ffff);
    assert InsnOk(0, f[0], 2) && InsnOk(1, f[1], 2);
    if n > 0 {
      assert Step(f, Start(mem), p) == Start(mem);
      AcceptedButEndless(p, mem, n - 1);
    }
  }
}
