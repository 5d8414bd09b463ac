/**
 * The constant checks of binary operations, which are to catch divisors of zero and shifts by more
 * than 31 bits. They look at the first statement of the right operand's code: when that is right.
 */
module ConstantChecks {
  import opened Words
  import opened Bpf
  import opened Arithmetic

  predicate Checked(op: AluOp) {
    op == Div || op == Mod || op == Lsh || op == Rsh
  }

  /** The operation is not meant to have such a right operand. */
  predicate Unsuitable(op: AluOp, v: Val) {
    v.Fail? || (if op == Div || op == Mod then v.v == 0 else v.v > 31)
  }

  /** The operation gives nothing: no value or, for a shift, only 0. */
  predicate Nothing(op: AluOp, v: Val) {
    v.Fail? || ((op == Lsh || op == Rsh) && v.v == 0)
  }

  /** Whatever its left operand, and whatever the packet, the operation gives nothing. */
  ghost predicate Pointless(op: AluOp, b: AExpr)
    requires Supported(b)
  {
    forall a: AExpr, p: Packet | Supported(a) :: Nothing(op, ValueOf(Binary(op, a, b), p))
  }

  lemma {:induction false} PowerBelow(v: nat, w: nat)
    requires v <= w
    ensures Pow2(v) <= Pow2(w)
    decreases w
  {
    if v < w { PowerBelow(v, w - 1); }
  }

  lemma SmallPower(v: nat)
    requires v <= 31
    ensures 1 <= Pow2(v) <= 0x8000_0000
  {
    PowerBelow(v, 31);
    Pow2At32();
    assert Pow2(32) == 2 * Pow2(31);
  }

  /** A left operand that shows the difference: all ones for a right shift, one for the others. */
  function Witness(op: AluOp): AExpr {
    Num(if op == Rsh then 0xffff_ffff else 1)
  }

  lemma GoesAtLeastOnce(n: nat, q: nat)
    requires 0 < q <= n
    ensures n / q >= 1
  {
    assert n == q * (n / q) + n % q;
  }

  lemma WitnessGives(op: AluOp, x: u32)
    requires Checked(op) && !Unsuitable(op, Val(x))
    ensures op == Lsh || op == Rsh ==> Alu(op, if op == Rsh then 0xffff_ffff else 1, x) != 0
  {
    if op == Lsh || op == Rsh {
      SmallPower(x);
      var q := Pow2(x);
      hide Pow2;
      if op == Rsh {
        GoesAtLeastOnce(0xffff_ffff, q);
      } else {
        ModUnique(q, WORD, 0, q);
        assert 1 * q == q;
      }
    }
  }

  /** An unsuitable right operand makes every operation give nothing. */
  lemma UnsuitableGivesNothing(op: AluOp, a: AExpr, b: AExpr, p: Packet)
    requires Checked(op) && Supported(a) && Supported(b) && Unsuitable(op, ValueOf(b, p))
    ensures Nothing(op, ValueOf(Binary(op, a, b), p))
  {
  }

  /** A suitable one does not. */
  lemma SuitableGivesSomething(op: AluOp, b: AExpr, p: Packet)
    requires Checked(op) && Supported(b) && !Unsuitable(op, ValueOf(b, p))
    ensures Supported(Witness(op)) && Supported(Binary(op, Witness(op), b))
    ensures !Nothing(op, ValueOf(Binary(op, Witness(op), b), p))
  {
    WitnessGives(op, ValueOf(b, p).v);
    hide Alu;
    assert ValueOf(Witness(op), p) == Val(Witness(op).k);
  }

  /** An operation is pointless exactly if its right operand is unsuitable on every packet. */
  lemma PointlessIff(op: AluOp, b: AExpr)
    requires Checked(op) && Supported(b)
    ensures Pointless(op, b) <==> forall p: Packet :: Unsuitable(op, ValueOf(b, p))
  {
    hide ValueOf, Nothing, Unsuitable;
    if p: Packet :| !Unsuitable(op, ValueOf(b, p)) {
      SuitableGivesSomething(op, b, p);
    } else {
      forall a: AExpr, p: Packet | Supported(a) ensures Nothing(op, ValueOf(Binary(op, a, b), p)) {
        UnsuitableGivesNothing(op, a, b, p);
      }
    }
  }

  // ---- Constant right operands -----------------------------------------------------------

  /** Numbers and operations on them. */
  predicate Constant(e: AExpr) {
    match e
    case Num(_) => true
    case Len => false
    case Load(_, _, _) => false
    case Minus(a) => Constant(a)
    case Binary(_, a, b) => Constant(a) && Constant(b)
  }

  /** The number the check sees. */
  function FirstNumber(e: AExpr): u32
    requires Constant(e)
  {
    match e
    case Num(k) => k
    case Minus(a) => FirstNumber(a)
    case Binary(_, a, _) => FirstNumber(a)
  }

  /** The value of a constant, which is the same on every packet. */
  function ConstantOf(e: AExpr): Val
    requires Constant(e)
  {
    match e
    case Num(k) => Val(k)
    case Minus(a) =>
      (match ConstantOf(a)
       case Val(v) => Val(Wrap(0 - v as int))
       case f => f)
    case Binary(op, a, b) =>
      match ConstantOf(a)
      case Fail(why) => Fail(why)
      case Val(va) =>
        match ConstantOf(b)
        case Fail(why) => Fail(why)
        case Val(vb) => if (op == Div || op == Mod) && vb == 0 then Fail(ZeroDivisor) else Val(Alu(op, va, vb))
  }

  lemma {:induction false} ConstantIs(e: AExpr, p: Packet)
    requires Constant(e)
    ensures Supported(e) && ValueOf(e, p) == ConstantOf(e) && FirstOf(e) == LdImm(FirstNumber(e))
  {
    hide Alu;
    match e {
      case Num(_) =>
      case Minus(a) => ConstantIs(a, p);
      case Binary(_, a, b) =>
        ConstantIs(a, p);
        ConstantIs(b, p);
    }
  }

  /** An operation with a constant right operand is pointless exactly if that constant is unsuitable. */
  lemma PointlessConstant(op: AluOp, b: AExpr)
    requires Checked(op) && Constant(b)
    ensures Supported(b) && (Pointless(op, b) <==> Unsuitable(op, ConstantOf(b)))
  {
    hide Pointless, ConstantOf, ValueOf;
    forall p: Packet ensures Supported(b) && ValueOf(b, p) == ConstantOf(b) {
      ConstantIs(b, p);
    }
    var p: Packet := RawPacket([], 0);
    assert ValueOf(b, p) == ConstantOf(b);
    PointlessIff(op, b);
  }

  /**
   * With a constant right operand, the check refuses the operation exactly if it is pointless, if and
   * only if the first number in it and its value are both suitable or both not.
   */
  lemma CheckIsRightIff(op: AluOp, b: AExpr)
    requires Checked(op) && Constant(b)
    ensures Supported(b)
    ensures (Refused(op, FirstOf(b)) <==> Pointless(op, b))
      <==> (Unsuitable(op, Val(FirstNumber(b))) <==> Unsuitable(op, ConstantOf(b)))
  {
    hide Pointless, ConstantOf, ValueOf;
    ConstantIs(b, RawPacket([], 0));
    PointlessConstant(op, b);
  }

  /** So it is for a right operand that is a number. */
  lemma LiteralsAreJudgedRight(op: AluOp, k: u32)
    requires Checked(op)
    ensures Refused(op, FirstOf(Num(k))) <==> Pointless(op, Num(k))
  {
    hide Pointless;
    CheckIsRightIff(op, Num(k));
  }

  /** But not for every constant: 0 + 2 is refused as a divisor and 1 - 1 is not. */
  lemma JudgedWrong()
    ensures var b := Binary(Add, Num(0), Num(2)); Refused(Div, FirstOf(b)) && !Pointless(Div, b)
    ensures var b := Binary(Sub, Num(1), Num(1)); !Refused(Div, FirstOf(b)) && Pointless(Div, b)
  {
    var two, none := Binary(Add, Num(0), Num(2)), Binary(Sub, Num(1), Num(1));
    assert ConstantOf(two) == Val(2) && ConstantOf(none) == Val(0);
    hide Pointless;
    PointlessConstant(Div, two);
    PointlessConstant(Div, none);
  }
}
