/** From filter expressions to the finished graph: the grammar's reductions and the end-to-end theorem. */
module FilterCompiler {
  import opened Words
  import opened Bpf
  import opened Conditions
  import opened BlockGraph
  import opened Linearize
  import opened Codegen
  import opened FieldTests
  import opened Protocols
  import opened Arithmetic
  import NetPrefix

  /** The generator calls of the grammar's arithmetic rules, operands left to right. Compilation succeeds exactly when
      every load's size is supported, no constant is refused, and the expression's register need is met. */
  method GenExpr(cs: CompilerState, e: AExpr) returns (g: Gen)
    requires cs.Valid() && cs.IsEthernet()
    modifies cs`curreg, cs.regused
    ensures cs.Valid()
    ensures g.Ok? ==> Made(cs, g.a, e, old(cs.Used()), old(cs.Free())) && fresh(g.a) && fresh(g.a.Blocks())
    ensures g.Ok? <==> Supported(e) && ConstantsPass(e) && Need(e) <= old(cs.Free())
    ensures g.TooManyRegisters? ==> Need(e) > old(cs.Free())
    ensures g.BadSize? ==> !Supported(e)
    ensures g.BadConstant? ==> !ConstantsPass(e)
    ensures !g.BadNetwork?
    decreases e
  {
    hide Computes, Carries, Arth.For;
    match e {
      case Num(k) => g := GenLoadi(cs, k);
      case Len => g := GenLoadlen(cs);
      case Load(layer, i, n) =>
        g := GenExpr(cs, i);
        if g.Ok? {
          g := GenLoad(cs, layer, g.a, n, i, old(cs.Used()), old(cs.Free()));
        }
      case Minus(a) =>
        g := GenExpr(cs, a);
        if g.Ok? {
          GenNeg(cs, g.a, a, old(cs.Used()), old(cs.Free()));
        }
      case Binary(op, a, b) =>
        g := GenExpr(cs, a);
        if g.Ok? {
          var a0 := g.a;
          g := GenExpr(cs, b);
          if g.Ok? {
            g := GenArth(cs, op, a0, g.a, a, b, old(cs.Used()), old(cs.Free()));
          }
        }
    }
  }

  // ---- Relations ----------------------------------------------------------------------

  /** The protocol check in front of an operand, in terms of the packet. */
  function GuardMeaning(e: AExpr, p: Packet): Outcome {
    match e
    case Num(_) => Outcome.Value(true)
    case Len => Outcome.Value(true)
    case Load(layer, i, _) =>
      (match layer
       case Link => GuardMeaning(i, p)
       case Net(q) => Both(GuardMeaning(i, p), IsNet(q, p))
       case Tran(q) => Both(IsNet(Ip, p), Both(GuardMeaning(i, p), Both(IsTran(q, p), IsFirstFragment(p)))))
    case Minus(a) => GuardMeaning(a, p)
    case Binary(_, a, _) => GuardMeaning(a, p)
  }

  ghost predicate GuardRight(g: Guard, p: Packet, o: Outcome) {
    match g case NoGuard => o == Outcome.Value(true) case Guard(x) => Decides(x, p, o)
  }

  lemma {:induction false} GuardDecides(e: AExpr, p: Packet)
    ensures GuardRight(GuardOf(e), p, GuardMeaning(e, p))
  {
    match e {
      case Num(_) =>
      case Len =>
      case Minus(a) => GuardDecides(a, p);
      case Binary(_, a, _) => GuardDecides(a, p);
      case Load(layer, i, _) =>
        GuardDecides(i, p);
        match layer {
          case Link =>
          case Net(q) =>
            NetDecides(q, p);
            AndGuard(GuardOf(i), NetE(q), p, GuardMeaning(i, p), IsNet(q, p));
          case Tran(q) =>
            TranDecides(q, p);
            FragDecides(p);
            NetDecides(Ip, p);
            BothDecides(TranE(q), FragE(), p, IsTran(q, p), IsFirstFragment(p));
            var b := AndThen(TranE(q), FragE());
            AndGuard(GuardOf(i), b, p, GuardMeaning(i, p), Both(IsTran(q, p), IsFirstFragment(p)));
            var inner := if GuardOf(i).Guard? then AndThen(GuardOf(i).e, b) else b;
            BothDecides(NetE(Ip), inner, p, IsNet(Ip, p),
                        Both(GuardMeaning(i, p), Both(IsTran(q, p), IsFirstFragment(p))));
        }
    }
  }

  lemma AndGuard(g: Guard, x: Expr, p: Packet, o: Outcome, o': Outcome)
    requires GuardRight(g, p, o) && Decides(x, p, o')
    ensures Decides(if g.Guard? then AndThen(g.e, x) else x, p, Both(o, o'))
  {
    if g.Guard? {
      BothDecides(g.e, x, p, o, o');
    }
  }

  /** The comparison of two values, or the end of the run. */
  function Compared(cond: Cond, a: Val, b: Val, reversed: bool): Outcome {
    match a
    case Fail(why) => Reject(why)
    case Val(va) =>
      match b
      case Fail(why) => Reject(why)
      case Val(vb) => Outcome.Value(Holds(cond, va, vb) != reversed)
  }

  /** What a relation decides: the operands' protocol checks, then the comparison of their values. */
  function RelationMeaning(cond: Cond, a: AExpr, b: AExpr, reversed: bool, p: Packet): Outcome
    requires Supported(a) && Supported(b)
  {
    Both(Both(GuardMeaning(a, p), GuardMeaning(b, p)), Compared(cond, ValueOf(a, p), ValueOf(b, p), reversed))
  }

  /** The test block of a relation: equality subtracts and compares with 0, the orderings compare A with X. */
  function RelationTest(cond: Cond, s0: seq<Stmt>, r0: nat, s1: seq<Stmt>, r1: nat): Test
    requires r0 < MEMWORDS && r1 < MEMWORDS
  {
    var ss := OperandCode(s0, r0, s1, r1);
    if cond == Eq then Test(ss + [AluX(Sub)], ByK(Eq, 0)) else Test(ss, ByX(cond))
  }

  /** It branches on the true comparison of the values modulo 2^32. */
  lemma RelationTestDecides(cond: Cond, s0: seq<Stmt>, r0: nat, a: AExpr, s1: seq<Stmt>, r1: nat, b: AExpr,
                            keep: set<nat>, p: Packet)
    requires Supported(a) && Supported(b) && cond != Set && r0 < MEMWORDS && r1 < MEMWORDS
    requires Computes(s0, r0, a, keep) && Computes(s1, r1, b, keep + {r0})
    ensures Decides(Leaf(RelationTest(cond, s0, r0, s1, r1)), p, Compared(cond, ValueOf(a, p), ValueOf(b, p), false))
  {
    forall r: Regs
      ensures OutcomeOf(Eval(Leaf(RelationTest(cond, s0, r0, s1, r1)), r, p)) ==
              Compared(cond, ValueOf(a, p), ValueOf(b, p), false)
    {
      RelationRun(cond, s0, r0, a, s1, r1, b, keep, r, p);
    }
  }

  lemma RelationRun(cond: Cond, s0: seq<Stmt>, r0: nat, a: AExpr, s1: seq<Stmt>, r1: nat, b: AExpr,
                    keep: set<nat>, r: Regs, p: Packet)
    requires Supported(a) && Supported(b) && cond != Set && r0 < MEMWORDS && r1 < MEMWORDS
    requires Computes(s0, r0, a, keep) && Computes(s1, r1, b, keep + {r0})
    ensures OutcomeOf(EvalTest(RelationTest(cond, s0, r0, s1, r1), r, p)) ==
            Compared(cond, ValueOf(a, p), ValueOf(b, p), false)
  {
    hide Computes, ExecAll, OperandCode, ValueOf;
    var code := OperandCode(s0, r0, s1, r1);
    OperandsRun(s0, r0, a, s1, r1, b, keep, r, p);
    ExecAllAppend(code, [AluX(Sub)], r, p);
    if ExecAll(code, r, p).Next? {
      var rl := ExecAll(code, r, p).regs;
      ExecOne(AluX(Sub), rl, p);
      DifferenceZero(rl.a, rl.x);
    }
  }

  lemma DifferenceZero(a: u32, x: u32)
    ensures Wrap(a - x) == 0 <==> a == x
  {
    if a >= x { ModUnique(a - x, WORD, 0, a - x); } else { ModUnique(a - x, WORD, -1, a - x + WORD); }
  }

  /** gen_relation: compile the comparison, free both registers, AND the protocol checks in front. */
  method GenRelation(cs: CompilerState, cond: Cond, a0: Arth, a1: Arth, reversed: bool,
                     ghost e0: AExpr, ghost e1: AExpr, ghost keep: set<nat>) returns (b: Block)
    requires cs.Valid() && cs.IsEthernet() && cond != Set && a0 != a1
    requires a0.For(e0, keep) && a1.For(e1, keep + {a0.regno})
    requires cs.Used() == keep + {a0.regno, a1.regno}
    requires a0.Blocks() !! a1.Blocks()
    modifies cs.regused, a0`s, a1`s, a0.Blocks(), a1.Blocks()
    ensures cs.Valid() && cs.Used() == keep && cs.Free() == old(cs.Free()) + 2
    ensures b.Open() && fresh((set x <- b.leaves) - old(a0.Blocks() + a1.Blocks()))
    ensures TestsDefined(b.expr) && forall p: Packet :: Decides(b.expr, p, RelationMeaning(cond, e0, e1, reversed, p))
    ensures InsnsOf(b.expr) <= RelationInsns(cond, e0, e1)
  {
    hide RelationInsns, InsnsOf, TestsDefined, AllDefined, Computes, Carries, Shape, Decides, RelationMeaning,
         Untouched;
    RelationDefined(cond, a0.s, a0.regno, e0, a1.s, a1.regno, e1, keep, reversed);
    ghost var test := Leaf(RelationTest(cond, a0.s, a0.regno, a1.s, a1.regno));
    RelationRight(cond, a0.s, a0.regno, e0, a1.s, a1.regno, e1, keep, reversed);
    b := RelationBlock(cond, a0, a1, reversed);
    FreeBoth(cs, a0.regno, a1.regno, keep);
    if a0.b != null && a1.b != null {
      assert Disjoint(a0.b.leaves, a1.b.leaves) by {
        assert forall x <- a0.b.leaves :: x in a0.Blocks();
        assert forall x <- a1.b.leaves :: x in a1.Blocks();
      }
    }
    GuardRelation(a0.b, a1.b, b, GuardOf(e0), GuardOf(e1));
  }

  /** The comparison itself, before the protocol checks. */
  method RelationBlock(cond: Cond, a0: Arth, a1: Arth, reversed: bool) returns (b: Block)
    requires a0 != a1 && a0.regno < MEMWORDS && a1.regno < MEMWORDS
    modifies a0`s, a1`s
    ensures b.Open() && fresh(b) && b.leaves == [b]
    ensures b.expr == Opposed(Leaf(old(RelationTest(cond, a0.s, a0.regno, a1.s, a1.regno))), reversed)
  {
    hide Shape, Untouched;
    ghost var test := RelationTest(cond, a0.s, a0.regno, a1.s, a1.regno);
    a1.s := a1.s + [LdxMem(a1.regno), LdMem(a0.regno)] + (if cond == Eq then [AluX(Sub)] else []);
    assert a0.s + a1.s == test.stmts;
    a0.s := a0.s + a1.s;
    b := new Block.Cond(a0.s, if cond == Eq then ByK(Eq, 0) else ByX(cond));
    if reversed {
      GenNot(b);
    }
  }

  function Opposed(e: Expr, reversed: bool): Expr {
    if reversed then Not(e) else e
  }

  method FreeBoth(cs: CompilerState, r0: nat, r1: nat, ghost keep: set<nat>)
    requires cs.Valid() && cs.IsEthernet()
    requires r0 !in keep && r1 !in keep && r0 != r1 && cs.Used() == keep + {r0, r1}
    modifies cs.regused
    ensures cs.Valid() && cs.Used() == keep && cs.Free() == old(cs.Free()) + 2
  {
    cs.FreeReg(r0);
    cs.FreeReg(r1);
  }

  lemma RelationDefined(cond: Cond, s0: seq<Stmt>, r0: nat, a: AExpr, s1: seq<Stmt>, r1: nat, b: AExpr, keep: set<nat>,
                        reversed: bool)
    requires Supported(a) && Supported(b) && AllDefined(s0) && AllDefined(s1)
    requires |s0| == CodeLength(a) && |s1| == CodeLength(b)
    requires Computes(s0, r0, a, keep) && Computes(s1, r1, b, keep + {r0})
    ensures r0 < MEMWORDS && r1 < MEMWORDS
    ensures var x := WithGuards(GuardOf(a), GuardOf(b), Opposed(Leaf(RelationTest(cond, s0, r0, s1, r1)), reversed));
      TestsDefined(x) && InsnsOf(x) <= RelationInsns(cond, a, b)
  {
    GuardDefined(a);
    GuardDefined(b);
    assert InsnsOf(Leaf(RelationTest(cond, s0, r0, s1, r1))) == |s0| + |s1| + (if cond == Eq then 6 else 5);
  }

  lemma {:induction false} GuardDefined(e: AExpr)
    ensures GuardOf(e).Guard? ==> TestsDefined(GuardOf(e).e)
  {
    match e {
      case Num(_) =>
      case Len =>
      case Minus(a) => GuardDefined(a);
      case Binary(_, a, _) => GuardDefined(a);
      case Load(layer, i, _) =>
        GuardDefined(i);
        match layer {
          case Link =>
          case Net(q) => NetTestDefined(q);
          case Tran(q) => NetTestDefined(Ip); TranTestDefined(q);
        }
    }
  }

  lemma NetTestDefined(q: NetProto)
    ensures TestsDefined(NetE(q))
  {
  }

  lemma TranTestDefined(q: TranProto)
    ensures TestsDefined(TranE(q)) && TestsDefined(FragE())
  {
    hide NetE, CmpE;
    NetTestDefined(Ip);
    NetTestDefined(Ip6);
    forall off: u32, v: u32 ensures TestsDefined(CmpE(off, Byte, v)) {
      CmpDefined(off, v);
    }
  }

  lemma CmpDefined(off: u32, v: u32)
    ensures TestsDefined(CmpE(off, Byte, v))
  {
  }

  lemma RelationRight(cond: Cond, s0: seq<Stmt>, r0: nat, a: AExpr, s1: seq<Stmt>, r1: nat, b: AExpr, keep: set<nat>,
                      reversed: bool)
    requires Supported(a) && Supported(b) && cond != Set
    requires Computes(s0, r0, a, keep) && Computes(s1, r1, b, keep + {r0})
    ensures r0 < MEMWORDS && r1 < MEMWORDS
    ensures var x := Opposed(Leaf(RelationTest(cond, s0, r0, s1, r1)), reversed);
            forall p: Packet ::
              Decides(WithGuards(GuardOf(a), GuardOf(b), x), p, RelationMeaning(cond, a, b, reversed, p))
  {
    var test := Leaf(RelationTest(cond, s0, r0, s1, r1));
    forall p: Packet
      ensures Decides(WithGuards(GuardOf(a), GuardOf(b), Opposed(test, reversed)), p,
                      RelationMeaning(cond, a, b, reversed, p))
    {
      RelationTestDecides(cond, s0, r0, a, s1, r1, b, keep, p);
      GuardedRelation(cond, a, b, reversed, test, p);
    }
  }

  /** The protocol checks of both operands, left first, in front of a test. */
  function WithGuards(g0: Guard, g1: Guard, x: Expr): Expr {
    if g0.Guard? then
      if g1.Guard? then AndThen(AndThen(g0.e, g1.e), x) else AndThen(g0.e, x)
    else if g1.Guard? then AndThen(g1.e, x)
    else x
  }

  method GuardRelation(b0: Block?, b1: Block?, b: Block, ghost g0: Guard, ghost g1: Guard)
    requires Carries(b0, g0) && Carries(b1, g1) && b.Open()
    requires b0 != null && b1 != null ==> Disjoint(b0.leaves, b1.leaves)
    requires b0 != null ==> Disjoint(b0.leaves, b.leaves)
    requires b1 != null ==> Disjoint(b1.leaves, b.leaves)
    modifies if b0 == null then [] else b0.leaves, if b1 == null then [] else b1.leaves, b.leaves
    ensures b.Open() && b.expr == WithGuards(g0, g1, old(b.expr))
    ensures b.leaves == old((if b0 == null then [] else b0.leaves) + (if b1 == null then [] else b1.leaves) + b.leaves)
  {
    hide Shape, Untouched;
    var tmp := b1;
    if b0 != null {
      if b1 != null {
        ghost var ls0, ls1 := b0.leaves, b1.leaves;
        GenAnd(b0, b1);
        assert b.Open() && b.expr == old(b.expr) && b.leaves == old(b.leaves) by {
          Apart(ls0, old(b.leaves));
          Apart(ls1, old(b.leaves));
        }
        assert Disjoint(b1.leaves, b.leaves);
      } else {
        tmp := b0;
      }
    }
    if tmp != null {
      GenAnd(tmp, b);
    }
  }

  lemma GuardedRelation(cond: Cond, a: AExpr, b: AExpr, reversed: bool, test: Expr, p: Packet)
    requires Supported(a) && Supported(b)
    requires Decides(test, p, Compared(cond, ValueOf(a, p), ValueOf(b, p), false))
    ensures Decides(WithGuards(GuardOf(a), GuardOf(b), if reversed then Not(test) else test), p,
                    RelationMeaning(cond, a, b, reversed, p))
  {
    var g0, g1, m0, m1 := GuardOf(a), GuardOf(b), GuardMeaning(a, p), GuardMeaning(b, p);
    var x, o := if reversed then Not(test) else test, Compared(cond, ValueOf(a, p), ValueOf(b, p), reversed);
    GuardDecides(a, p);
    GuardDecides(b, p);
    OppositeDecides(test, p, Compared(cond, ValueOf(a, p), ValueOf(b, p), false));
    if g1.Guard? {
      AndGuard(g0, g1.e, p, m0, m1);
      BothDecides(if g0.Guard? then AndThen(g0.e, g1.e) else g1.e, x, p, Both(m0, m1), o);
    } else if g0.Guard? {
      BothDecides(g0.e, x, p, m0, o);
    }
  }

  // ---- Filters ------------------------------------------------------------------------

  datatype Relop = Greater | AtLeast | Equals | AtMost | Less | Differs

  datatype Filter =
    | Relation(op: Relop, a: AExpr, b: AExpr)
    | NetIs(net: NetProto)
    | TranIs(tran: TranProto)
    | InNetwork(network: NetPrefix.Network)
    | LongerOrEqual(n: u32)
    | ShorterOrEqual(n: u32)
    | All(left: Filter, right: Filter)
    | Any(left: Filter, right: Filter)
    | Opposite(inner: Filter)

  /** The jump condition of a relational operator, and whether it asks for the opposite. */
  function CondOf(op: Relop): Cond {
    match op
    case Greater => Gt case AtLeast => Ge case Equals => Eq
    case AtMost => Gt case Less => Ge case Differs => Eq
  }

  predicate Reversed(op: Relop) {
    op == AtMost || op == Less || op == Differs
  }

  /** The unsigned comparison the operator names. */
  predicate Compares(op: Relop, a: u32, b: u32) {
    match op
    case Greater => a > b case AtLeast => a >= b case Equals => a == b
    case AtMost => a <= b case Less => a < b case Differs => a != b
  }

  predicate SizesSupported(f: Filter) {
    match f
    case Relation(_, a, b) => Supported(a) && Supported(b)
    case All(l, r) => SizesSupported(l) && SizesSupported(r)
    case Any(l, r) => SizesSupported(l) && SizesSupported(r)
    case Opposite(i) => SizesSupported(i)
    case _ => true
  }

  predicate NetworksAdmitted(f: Filter) {
    match f
    case InNetwork(n) => NetPrefix.Admitted(n)
    case All(l, r) => NetworksAdmitted(l) && NetworksAdmitted(r)
    case Any(l, r) => NetworksAdmitted(l) && NetworksAdmitted(r)
    case Opposite(i) => NetworksAdmitted(i)
    case _ => true
  }

  /** The filter has a meaning. */
  predicate Meaningful(f: Filter) {
    SizesSupported(f) && NetworksAdmitted(f)
  }

  predicate ConstantsAllowed(f: Filter) {
    match f
    case Relation(_, a, b) => ConstantsPass(a) && ConstantsPass(b)
    case All(l, r) => ConstantsAllowed(l) && ConstantsAllowed(r)
    case Any(l, r) => ConstantsAllowed(l) && ConstantsAllowed(r)
    case Opposite(i) => ConstantsAllowed(i)
    case _ => true
  }

  /** What a filter says of a packet: true, false, or rejected outright. */
  function Meaning(f: Filter, p: Packet): Outcome
    requires Meaningful(f)
  {
    match f
    case Relation(op, a, b) =>
      var guards := Both(GuardMeaning(a, p), GuardMeaning(b, p));
      Both(guards,
           match ValueOf(a, p)
           case Fail(why) => Reject(why)
           case Val(va) =>
             match ValueOf(b, p)
             case Fail(why) => Reject(why)
             case Val(vb) => Outcome.Value(Compares(op, va, vb)))
    case NetIs(q) => IsNet(q, p)
    case TranIs(q) => IsTran(q, p)
    case InNetwork(n) => NetPrefix.IsIn(n, p)
    case LongerOrEqual(n) => Outcome.Value(p.wirelen >= n)
    case ShorterOrEqual(n) => Outcome.Value(p.wirelen <= n)
    case All(l, r) => Both(Meaning(l, p), Meaning(r, p))
    case Any(l, r) => Either(Meaning(l, p), Meaning(r, p))
    case Opposite(i) => Protocols.Opposite(Meaning(i, p))
  }

  lemma RelationIsMeaning(op: Relop, a: AExpr, b: AExpr, p: Packet)
    requires Supported(a) && Supported(b)
    ensures RelationMeaning(CondOf(op), a, b, Reversed(op), p) == Meaning(Relation(op, a, b), p)
  {
  }

  /** The registers a filter needs: every relation gives its registers back. */
  function FilterNeed(f: Filter): nat {
    match f
    case Relation(_, a, b) => if Need(a) < 1 + Need(b) then 1 + Need(b) else Need(a)
    case All(l, r) => if FilterNeed(l) < FilterNeed(r) then FilterNeed(r) else FilterNeed(l)
    case Any(l, r) => if FilterNeed(l) < FilterNeed(r) then FilterNeed(r) else FilterNeed(l)
    case Opposite(i) => FilterNeed(i)
    case _ => 0
  }

  /** The most instructions that the protocol check of an operand, a relation, or a filter can take. */
  function GuardInsns(e: AExpr): nat {
    match GuardOf(e) case NoGuard => 0 case Guard(x) => InsnsOf(x)
  }

  function RelationInsns(cond: Cond, a: AExpr, b: AExpr): nat {
    GuardInsns(a) + GuardInsns(b) + CodeLength(a) + CodeLength(b) + (if cond == Eq then 6 else 5)
  }

  function Insns(f: Filter): nat {
    match f
    case Relation(op, a, b) => RelationInsns(CondOf(op), a, b)
    case NetIs(q) => InsnsOf(NetE(q))
    case TranIs(q) => InsnsOf(TranE(q))
    case InNetwork(n) => NetPrefix.NetworkInsns(n)
    case LongerOrEqual(_) => 4
    case ShorterOrEqual(_) => 4
    case All(l, r) => Insns(l) + Insns(r)
    case Any(l, r) => Insns(l) + Insns(r)
    case Opposite(i) => Insns(i)
  }

  datatype Built = Block(b: BlockGraph.Block) | Error(why: Gen)

  /** The error is one that there is reason for. */
  ghost predicate FailsFor(why: Gen, sizes: bool, constants: bool, registers: bool, networks: bool) {
    match why
    case BadNetwork => networks
    case Ok(_) => false
    case TooManyRegisters => registers
    case BadConstant => constants
    case BadSize => sizes
  }

  /** x decides what f means, for every register state and every packet, by tests that the static check accepts and
      with no more instructions than f can take. */
  ghost predicate Implements(x: Expr, f: Filter)
    requires Meaningful(f)
  {
    TestsDefined(x) && InsnsOf(x) <= Insns(f) && forall p: Packet :: Decides(x, p, Meaning(f, p))
  }

  /** gen_len: compare the packet's length on the wire. */
  method GenLen(cond: Cond, n: u32, opposite: bool) returns (b: BlockGraph.Block)
    requires cond == Ge || cond == Gt
    ensures b.Open() && fresh(b) && b.leaves == [b] && TestsDefined(b.expr) && InsnsOf(b.expr) == 4
    ensures forall p: Packet :: Decides(b.expr, p, Outcome.Value(Holds(cond, p.wirelen, n) != opposite))
  {
    hide Shape, Untouched;
    b := new BlockGraph.Block.Cond([LdLen], ByK(cond, n));
    ghost var test := b.expr;
    if opposite {
      GenNot(b);
    }
    forall p: Packet, r: Regs
      ensures OutcomeOf(Eval(b.expr, r, p)) == Outcome.Value(Holds(cond, p.wirelen, n) != opposite)
    {
      ExecOne(LdLen, r, p);
    }
  }

  /** The generator calls of the grammar's boolean rules. */
  method GenFilter(cs: CompilerState, f: Filter) returns (g: Built)
    requires cs.Valid() && cs.IsEthernet()
    modifies cs`curreg, cs.regused
    ensures cs.Valid()
    ensures g.Block? <==> Meaningful(f) && ConstantsAllowed(f) && FilterNeed(f) <= old(cs.Free())
    ensures g.Block? ==> g.b.Open() && fresh(g.b.leaves) && Meaningful(f) && Implements(g.b.expr, f)
    ensures g.Block? ==> cs.Used() == old(cs.Used()) && cs.Free() == old(cs.Free())
    ensures g.Error? ==>
      FailsFor(g.why, !SizesSupported(f), !ConstantsAllowed(f), FilterNeed(f) > old(cs.Free()), !NetworksAdmitted(f))
    decreases f, 1
  {
    hide Shape, Untouched, Meaning, Implements, Insns, InsnsOf, TestsDefined;
    match f {
      case Relation(_, _, _) => g := GenRelop(cs, f);
      case Opposite(i) =>
        g := GenFilter(cs, i);
        if g.Block? {
          ImplementsOpposite(g.b.expr, i);
          GenNot(g.b);
        }
      case All(l, r) =>
        var b0;
        b0, g := GenOperands(cs, f, l, r);
        if b0 != null {
          ImplementsAll(b0.expr, g.b.expr, l, r);
          GenAnd(b0, g.b);
        }
      case Any(l, r) =>
        var b0;
        b0, g := GenOperands(cs, f, l, r);
        if b0 != null {
          ImplementsAny(b0.expr, g.b.expr, l, r);
          GenOr(b0, g.b);
        }
      case _ => g := GenTest(cs, f);
    }
  }

  /** The operands of a connective, left first. */
  method GenOperands(cs: CompilerState, f: Filter, l: Filter, r: Filter) returns (b0: BlockGraph.Block?, g: Built)
    requires cs.Valid() && cs.IsEthernet() && (f == All(l, r) || f == Any(l, r))
    modifies cs`curreg, cs.regused
    ensures cs.Valid() && (b0 != null <==> g.Block?)
    ensures g.Block? <==> Meaningful(f) && ConstantsAllowed(f) && FilterNeed(f) <= old(cs.Free())
    ensures g.Block? ==> Meaningful(l) && fresh(b0.leaves) && b0.Open() && Implements(b0.expr, l)
    ensures g.Block? ==> Meaningful(r) && fresh(g.b.leaves) && g.b.Open() && Implements(g.b.expr, r)
    ensures g.Block? ==> Disjoint(b0.leaves, g.b.leaves)
    ensures g.Block? ==> cs.Used() == old(cs.Used()) && cs.Free() == old(cs.Free())
    ensures g.Error? ==>
      FailsFor(g.why, !SizesSupported(f), !ConstantsAllowed(f), FilterNeed(f) > old(cs.Free()), !NetworksAdmitted(f))
    decreases f, 0
  {
    hide Shape, Untouched, Meaning, Implements;
    b0 := null;
    g := GenFilter(cs, l);
    if g.Block? {
      var left := g.b;
      g := GenFilter(cs, r);
      if g.Block? {
        b0 := left;
      }
    }
  }

  /** The tests that use no register. */
  method GenTest(cs: CompilerState, f: Filter) returns (g: Built)
    requires cs.Valid() && cs.IsEthernet()
    requires f.NetIs? || f.TranIs? || f.InNetwork? || f.LongerOrEqual? || f.ShorterOrEqual?
    ensures g.Block? <==> Meaningful(f)
    ensures g.Block? ==> g.b.Open() && fresh(g.b.leaves) && Implements(g.b.expr, f)
    ensures g.Error? ==> g.why == BadNetwork && !NetworksAdmitted(f)
  {
    hide Shape, Untouched, Meaning, Implements;
    match f {
      case NetIs(q) =>
        var b := GenLinktype(cs, q);
        ImplementsNet(q);
        g := Built.Block(b);
      case TranIs(q) =>
        var b := GenTran(cs, q);
        ImplementsTran(q);
        g := Built.Block(b);
      case InNetwork(n) =>
        var b := NetPrefix.GenMcode(cs, n);
        if b == null {
          return Error(BadNetwork);
        }
        ImplementsNetwork(n);
        g := Built.Block(b);
      case LongerOrEqual(n) =>
        var b := GenLen(Ge, n, false);
        ImplementsLen(b.expr, f);
        g := Built.Block(b);
      case ShorterOrEqual(n) =>
        var b := GenLen(Gt, n, true);
        ImplementsLen(b.expr, f);
        g := Built.Block(b);
    }
  }

  method GenRelop(cs: CompilerState, f: Filter) returns (g: Built)
    requires cs.Valid() && cs.IsEthernet() && f.Relation?
    modifies cs`curreg, cs.regused
    ensures cs.Valid()
    ensures g.Block? <==> SizesSupported(f) && ConstantsAllowed(f) && FilterNeed(f) <= old(cs.Free())
    ensures g.Block? ==> g.b.Open() && fresh(g.b.leaves) && Meaningful(f) && Implements(g.b.expr, f)
    ensures g.Block? ==> cs.Used() == old(cs.Used()) && cs.Free() == old(cs.Free())
    ensures g.Error? ==>
      FailsFor(g.why, !SizesSupported(f), !ConstantsAllowed(f), FilterNeed(f) > old(cs.Free()), false)
  {
    hide Shape, Untouched, Computes, Carries, Arth.For, Implements, RelationMeaning, Decides, Insns, InsnsOf,
         RelationInsns, TestsDefined, Supported, ConstantsPass, Need;
    var Relation(op, a, b) := f;
    var g0 := GenExpr(cs, a);
    if !g0.Ok? { return Error(g0); }
    var g1 := GenExpr(cs, b);
    if !g1.Ok? { return Error(g1); }
    var block := GenRelation(cs, CondOf(op), g0.a, g1.a, Reversed(op), a, b, old(cs.Used()));
    ImplementsRelation(block.expr, op, a, b);
    g := Built.Block(block);
  }

  lemma ImplementsRelation(x: Expr, op: Relop, a: AExpr, b: AExpr)
    requires Supported(a) && Supported(b) && InsnsOf(x) <= RelationInsns(CondOf(op), a, b)
    requires TestsDefined(x) && forall p: Packet :: Decides(x, p, RelationMeaning(CondOf(op), a, b, Reversed(op), p))
    ensures Implements(x, Relation(op, a, b))
  {
    forall p: Packet ensures Decides(x, p, Meaning(Relation(op, a, b), p)) {
      RelationIsMeaning(op, a, b, p);
    }
  }

  lemma ImplementsNet(q: NetProto)
    ensures Implements(NetE(q), NetIs(q))
  {
    forall p: Packet ensures Decides(NetE(q), p, Meaning(NetIs(q), p)) { NetDecides(q, p); }
  }

  lemma ImplementsTran(q: TranProto)
    ensures Implements(TranE(q), TranIs(q))
  {
    TranTestDefined(q);
    hide TranE, IsTran, TestsDefined, Decides;
    forall p: Packet ensures Decides(TranE(q), p, Meaning(TranIs(q), p)) { TranDecides(q, p); }
  }

  lemma ImplementsNetwork(n: NetPrefix.Network)
    requires NetPrefix.Admitted(n)
    ensures Implements(NetPrefix.NetworkE(n), InNetwork(n))
  {
    NetPrefix.NetworkDefined(n);
    hide NetPrefix.NetworkE, NetPrefix.IsIn, NetPrefix.Admitted;
    forall p: Packet ensures Decides(NetPrefix.NetworkE(n), p, Meaning(InNetwork(n), p)) {
      NetPrefix.NetworkDecides(n, p);
    }
  }

  lemma ImplementsLen(x: Expr, f: Filter)
    requires f.LongerOrEqual? || f.ShorterOrEqual?
    requires TestsDefined(x) && InsnsOf(x) == 4
    requires forall p: Packet :: Decides(x, p, Outcome.Value(if f.LongerOrEqual? then Holds(Ge, p.wirelen, f.n) != false
                                                             else Holds(Gt, p.wirelen, f.n) != true))
    ensures Implements(x, f)
  {
    forall p: Packet ensures Decides(x, p, Meaning(f, p)) {
      assert Meaning(f, p) == Outcome.Value(if f.LongerOrEqual? then Holds(Ge, p.wirelen, f.n) != false
                                            else Holds(Gt, p.wirelen, f.n) != true);
    }
  }

  lemma ImplementsOpposite(x: Expr, i: Filter)
    requires Meaningful(i) && Implements(x, i)
    ensures Implements(Not(x), Opposite(i))
  {
    forall p: Packet ensures Decides(Not(x), p, Meaning(Opposite(i), p)) {
      OppositeDecides(x, p, Meaning(i, p));
    }
  }

  lemma ImplementsAll(x: Expr, y: Expr, l: Filter, r: Filter)
    requires Meaningful(l) && Meaningful(r) && Implements(x, l) && Implements(y, r)
    ensures Implements(AndThen(x, y), All(l, r))
  {
    forall p: Packet ensures Decides(AndThen(x, y), p, Meaning(All(l, r), p)) {
      BothDecides(x, y, p, Meaning(l, p), Meaning(r, p));
    }
  }

  lemma ImplementsAny(x: Expr, y: Expr, l: Filter, r: Filter)
    requires Meaningful(l) && Meaningful(r) && Implements(x, l) && Implements(y, r)
    ensures Implements(OrElse(x, y), Any(l, r))
  {
    forall p: Packet ensures Decides(OrElse(x, y), p, Meaning(Any(l, r), p)) {
      EitherDecides(x, y, p, Meaning(l, p), Meaning(r, p));
    }
  }

  // ---- The whole compiler ---------------------------------------------------------------

  /** The graph returns the snapshot length exactly where the filter is true,
      and 0 where it is false or a test leaves the packet or divides by zero. */
  ghost predicate Accepts(root: BlockGraph.Block, bs: seq<BlockGraph.Block>, f: Filter, snaplen: u32)
    requires Meaningful(f)
    reads bs`jt, bs`jf, bs`stmts, bs`s
  {
    forall r: Regs, p: Packet :: RunMeans(root, bs, r, p, Meaning(f, p), snaplen)
  }

  /** pcap_compile without the optimizer, on Ethernet: for every filter that compiles, and for every packet and
      initial register state, the graph returns the snapshot length iff the filter is true of the packet. */
  method Compile(f: Filter, snaplen: u32) returns (g: Built, ghost bs: seq<BlockGraph.Block>)
    ensures g.Block? <==> Meaningful(f) && ConstantsAllowed(f) && FilterNeed(f) <= MEMWORDS
    ensures g.Block? ==> Meaningful(f) && Accepts(g.b, bs, f, snaplen) && Most(bs) <= Insns(f) + 6
    ensures g.Block? ==> Convertible(g.b, bs) && fresh(bs) && BlocksDefined(bs)
    ensures g.Error? ==> FailsFor(g.why, !SizesSupported(f), !ConstantsAllowed(f), FilterNeed(f) > MEMWORDS,
                                  !NetworksAdmitted(f))
  {
    hide Shape, Untouched, Meaning, Implements, Compiled, Accepts, Convertible, Distinct, BlocksDefined,
         TestsDefined, Most, Insns, InsnsOf;
    bs := [];
    var cs := new CompilerState.Ethernet();
    g := GenFilter(cs, f);
    if g.Block? {
      ghost var x := g.b.expr;
      PrefixNothing(x);
      ghost var p := g.b;
      var root, accept, reject := FinishParse(g.b, [], null, snaplen);
      bs := p.leaves + [accept, reject];
      CompiledConverts(p.leaves, x, accept, reject, snaplen);
      ImplementsDefined(x, f);
      CompiledDefined(p.leaves, x, accept, reject, snaplen);
      CompiledIsWithin(p.leaves, x, accept, reject, snaplen);
      CompiledAccepts(p.leaves, x, accept, reject, f, snaplen);
      g := Built.Block(root);
    }
  }

  lemma ImplementsDefined(x: Expr, f: Filter)
    requires Meaningful(f) && Implements(x, f)
    ensures TestsDefined(x) && InsnsOf(x) <= Insns(f)
  {
  }

  lemma CompiledAccepts(ls: seq<BlockGraph.Block>, x: Expr, accept: BlockGraph.Block, reject: BlockGraph.Block,
                        f: Filter, snaplen: u32)
    requires Meaningful(f) && Implements(x, f) && Compiled(ls, x, accept, reject, snaplen)
    ensures |ls| >= 1 && Accepts(ls[0], ls + [accept, reject], f, snaplen)
  {
    var bs := ls + [accept, reject];
    forall r: Regs, p: Packet ensures RunMeans(ls[0], bs, r, p, Meaning(f, p), snaplen) {
      CompiledRun(ls, x, accept, reject, r, p, Meaning(f, p), snaplen);
    }
  }
}
