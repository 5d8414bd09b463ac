/** The whole way of a filter: compiled, converted to a program, and run on a packet. */
module Program {
  import opened Words
  import opened Bpf
  import opened BlockGraph
  import opened FieldTests
  import opened Protocols
  import opened Arithmetic
  import opened FilterCompiler
  import opened Linearize
  import Interpreter
  import Wlan
  import Validator
  import NetPrefix

  /** How the machine ends where the outcome of the filter is o. */
  function EndOf(o: Outcome, snaplen: u32): Interpreter.Status {
    match o
    case Value(v) => Interpreter.Returned(if v then snaplen else 0)
    case Reject(why) => Interpreter.Stopped(why)
  }

  /** Within as many steps as it is long, and whatever the scratch memory held, the program ends with the outcome. */
  ghost predicate Decided(code: seq<Insn>, p: Packet, o: Outcome, snaplen: u32) {
    forall mem0: Scratch :: Interpreter.FinalOf(Interpreter.Code(code), p, mem0, |code|) == EndOf(o, snaplen)
  }

  lemma RunsAsMeant(code: seq<Insn>, root: BlockGraph.Block, bs: seq<BlockGraph.Block>, p: Packet, o: Outcome,
                    snaplen: u32)
    requires forall r: Regs :: SameRun(code, root, bs, r, p) && RunMeans(root, bs, r, p, o, snaplen)
    ensures Decided(code, p, o, snaplen)
  {
    hide Run, Interpreter.Steps;
    forall mem0: Scratch
      ensures Interpreter.FinalOf(Interpreter.Code(code), p, mem0, |code|) == EndOf(o, snaplen)
    {
      assert SameRun(code, root, bs, Regs(0, 0, mem0), p) && RunMeans(root, bs, Regs(0, 0, mem0), p, o, snaplen);
    }
  }

  datatype Output = Code(insns: seq<Insn>) | TooManyRegisters | BadSize | BadConstant | BadNumber | NoMemory

  ghost predicate FilterDecided(code: seq<Insn>, f: Filter, snaplen: u32)
    requires Meaningful(f)
  {
    forall p: Packet :: Decided(code, p, Meaning(f, p), snaplen)
  }

  /** pcap_compile without the optimizer, on Ethernet: every packet is decided by the program as the filter means it. */
  method CompileProgram(f: Filter, snaplen: u32, memory: nat) returns (out: Output)
    requires memory <= INT_MAX
    ensures out.Code? ==> |out.insns| <= memory && Meaningful(f) && FilterDecided(out.insns, f, snaplen)
    ensures out.Code? ==> Validator.Valid(out.insns)
    ensures out.Code? || out.NoMemory? <==> Meaningful(f) && ConstantsAllowed(f) && FilterNeed(f) <= MEMWORDS
    ensures out.TooManyRegisters? ==> FilterNeed(f) > MEMWORDS
    ensures out.BadSize? ==> !SizesSupported(f)
    ensures out.BadConstant? ==> !ConstantsAllowed(f)
    ensures out.BadNumber? ==> !NetworksAdmitted(f)
    ensures out.NoMemory? ==> memory < Insns(f) + 6
  {
    hide Accepts, Convertible, SameRun, BlocksDefined, Validator.Valid, Meaning, Decided, Forward, Total, Reach,
         Most, Insns, Meaningful, ConstantsAllowed, FilterNeed, FilterDecided;
    var g, bs := Compile(f, snaplen);
    if g.Error? {
      match g.why {
        case TooManyRegisters => return Output.TooManyRegisters;
        case BadSize => return Output.BadSize;
        case BadConstant => return Output.BadConstant;
        case BadNetwork => return Output.BadNumber;
      }
    }
    var fp := Emit(g.b, memory, bs);
    if fp == null {
      return NoMemory;
    }
    FilterIsDecided(fp[..], g.b, bs, f, snaplen);
    out := Output.Code(fp[..]);
  }

  lemma FilterIsDecided(code: seq<Insn>, root: BlockGraph.Block, bs: seq<BlockGraph.Block>, f: Filter, snaplen: u32)
    requires Meaningful(f) && Accepts(root, bs, f, snaplen)
    requires forall r: Regs, p: Packet :: SameRun(code, root, bs, r, p)
    ensures FilterDecided(code, f, snaplen)
  {
    hide SameRun, Meaning, RunMeans;
    forall p: Packet ensures Decided(code, p, Meaning(f, p), snaplen) {
      RunsAsMeant(code, root, bs, p, Meaning(f, p), snaplen);
    }
  }

  /** The program of a network filter. */
  method CompileNetProgram(n: NetPrefix.Network, snaplen: u32, memory: nat) returns (out: Output)
    requires memory <= INT_MAX
    ensures out.BadNumber? <==> !NetPrefix.Admitted(n)
    ensures out.Code? ==> forall p: Packet :: Decided(out.insns, p, NetPrefix.IsIn(n, p), snaplen)
    ensures out.Code? ==> Validator.Valid(out.insns)
    ensures out.NoMemory? ==> memory < NetPrefix.NetworkInsns(n) + 6
    ensures out.Code? || out.BadNumber? || out.NoMemory?
  {
    hide Validator.Valid, Decided, NetPrefix.Admitted, NetPrefix.IsIn;
    var f := InNetwork(n);
    out := CompileProgram(f, snaplen, memory);
    if out.Code? {
      forall p: Packet ensures Decided(out.insns, p, NetPrefix.IsIn(n, p), snaplen) {
        assert Decided(out.insns, p, Meaning(f, p), snaplen);
      }
    }
  }

  ghost predicate HostDecided(code: seq<Insn>, spec: Wlan.Spec, snaplen: u32) {
    forall p: Packet :: Decided(code, p, Wlan.Told(spec, p), snaplen)
  }

  /** The program of a host filter on 802.11. */
  method CompileHostProgram(addr: seq<byte>, dir: Direction, snaplen: u32, memory: nat) returns (out: Output)
    requires |addr| == 6 && memory <= INT_MAX
    ensures out.Code? ==> HostDecided(out.insns, Wlan.HostSpec(dir, addr), snaplen) && Validator.Valid(out.insns)
    ensures out.NoMemory? ==> memory < Wlan.SpecInsns(Wlan.HostSpec(dir, addr)) + 6
    ensures out.Code? || out.NoMemory?
  {
    hide Wlan.SpecInsns, Wlan.Accepts, Convertible, SameRun, BlocksDefined, Validator.Valid, Wlan.Told,
         Wlan.HostSpec, Decided, Forward, Total, Reach, Most, Wlan.Means, HostDecided;
    var root, bs := Wlan.CompileHost(addr, dir, snaplen);
    var fp := Emit(root, memory, bs);
    if fp == null {
      return NoMemory;
    }
    HostIsDecided(fp[..], root, bs, Wlan.HostSpec(dir, addr), snaplen);
    out := Output.Code(fp[..]);
  }

  lemma HostIsDecided(code: seq<Insn>, root: BlockGraph.Block, bs: seq<BlockGraph.Block>, spec: Wlan.Spec, snaplen: u32)
    requires Wlan.Accepts(root, bs, spec, snaplen) && forall r: Regs, p: Packet :: SameRun(code, root, bs, r, p)
    ensures HostDecided(code, spec, snaplen)
  {
    hide SameRun, Wlan.Told, RunMeans;
    forall p: Packet ensures Decided(code, p, Wlan.Told(spec, p), snaplen) {
      RunsAsMeant(code, root, bs, p, Wlan.Told(spec, p), snaplen);
    }
  }

  // ---- Filtering a packet -------------------------------------------------------------------

  /** A compiled filter never gets to a statement that C leaves undefined. */
  lemma {:induction false} NeverUndefined(f: Filter, p: Packet)
    requires Meaningful(f)
    ensures Meaning(f, p) != Reject(Undefined)
  {
    hide IsNet, IsTran, NetPrefix.IsIn, NetPrefix.Admitted, ValueOf, GuardMeaning, Supported;
    match f {
      case Relation(op, a, b) =>
        RelationIsDefined(op, a, b, p);
      case All(l, r) =>
        NeverUndefined(l, p);
        NeverUndefined(r, p);
      case Any(l, r) =>
        NeverUndefined(l, p);
        NeverUndefined(r, p);
      case Opposite(i) =>
        NeverUndefined(i, p);
      case NetIs(q) => NetIsDefined(q, p);
      case TranIs(q) => TranIsDefined(q, p);
      case InNetwork(n) => NetworkIsDefined(n, p);
      case _ =>
    }
  }

  lemma NetIsDefined(q: NetProto, p: Packet)
    ensures IsNet(q, p) != Reject(Undefined)
  {
  }

  lemma TranIsDefined(q: TranProto, p: Packet)
    ensures IsTran(q, p) != Reject(Undefined)
  {
  }

  lemma NetworkIsDefined(n: NetPrefix.Network, p: Packet)
    requires NetPrefix.Admitted(n)
    ensures NetPrefix.IsIn(n, p) != Reject(Undefined)
  {
    hide NetPrefix.Admitted, NetPrefix.GoodNetwork, NetPrefix.HostIs, NetPrefix.MaskIs, NetPrefix.Promoted;
    forall q: NetProto, m: u32, a: u32 ensures NetPrefix.HostIs(p, q, n.dir, m, a) != Reject(Undefined) {
      HostIsDefined(p, q, n.dir, m, a);
    }
  }

  lemma HostIsDefined(p: Packet, q: NetProto, dir: Direction, mask: u32, addr: u32)
    ensures NetPrefix.HostIs(p, q, dir, mask, addr) != Reject(Undefined)
  {
  }

  lemma RelationIsDefined(op: Relop, a: AExpr, b: AExpr, p: Packet)
    requires Supported(a) && Supported(b)
    ensures Meaning(Relation(op, a, b), p) != Reject(Undefined)
  {
    hide ValueOf, GuardMeaning;
    ValueIsDefined(a, p);
    ValueIsDefined(b, p);
    GuardIsDefined(a, p);
    GuardIsDefined(b, p);
  }

  lemma {:induction false} ValueIsDefined(e: AExpr, p: Packet)
    requires Supported(e)
    ensures ValueOf(e, p) != Fail(Undefined)
  {
    match e {
      case Num(_) =>
      case Len =>
      case Load(_, i, _) => ValueIsDefined(i, p);
      case Minus(a) => ValueIsDefined(a, p);
      case Binary(_, a, b) =>
        ValueIsDefined(a, p);
        ValueIsDefined(b, p);
    }
  }

  lemma {:induction false} GuardIsDefined(e: AExpr, p: Packet)
    ensures GuardMeaning(e, p) != Reject(Undefined)
  {
    match e {
      case Num(_) =>
      case Len =>
      case Load(_, i, _) => GuardIsDefined(i, p);
      case Minus(a) => GuardIsDefined(a, p);
      case Binary(_, a, _) => GuardIsDefined(a, p);
    }
  }

  datatype Decision = Kept(bytes: u32) | Refused | OutOfMemory | Faulted

  /** pcap_compile followed by pcap_offline_filter: the packet is kept exactly if the filter is true of it. */
  method FilterPacket(f: Filter, snaplen: u32, memory: nat, p: Packet, mem0: Scratch) returns (d: Decision)
    requires memory <= INT_MAX
    ensures d.Kept? ==> Meaningful(f) && d.bytes == if Meaning(f, p) == Value(true) then snaplen else 0
    ensures d.Refused? <==> !(Meaningful(f) && ConstantsAllowed(f) && FilterNeed(f) <= MEMWORDS)
    ensures d.OutOfMemory? ==> memory < Insns(f) + 6
    ensures !d.Faulted?
  {
    hide Meaning, Interpreter.FinalOf;
    var out := CompileProgram(f, snaplen, memory);
    if out.NoMemory? {
      return OutOfMemory;
    }
    if !out.Code? {
      return Decision.Refused;
    }
    NeverUndefined(f, p);
    assert Decided(out.insns, p, Meaning(f, p), snaplen);
    var end := Interpreter.PcapFilter(Interpreter.Code(out.insns), p, mem0, |out.insns|);
    match end {
      case Returned(v) => d := Kept(v);
      case Stopped(OutsidePacket) => d := Kept(0);
      case Stopped(ZeroDivisor) => d := Kept(0);
      case _ => d := Faulted;
    }
  }
}
