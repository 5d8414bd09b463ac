/** Filter expressions, their left-to-right meaning, and the jump table that short-circuit code has. */
module Conditions {
  import opened Words
  import opened Bpf

  /** The conditional jump that ends a block: against a constant or against X. */
  datatype Branch = ByK(cond: Cond, k: u32) | ByX(cond: Cond)

  predicate Taken(br: Branch, r: Regs) {
    match br
    case ByK(cond, k) => Holds(cond, r.a, k)
    case ByX(cond) => Holds(cond, r.a, r.x)
  }

  /** A primitive test: statements, then a conditional jump. */
  datatype Test = Test(stmts: seq<Stmt>, branch: Branch)

  datatype Expr =
    | Leaf(test: Test)
    | AndThen(left: Expr, right: Expr)
    | OrElse(left: Expr, right: Expr)
    | Not(inner: Expr)

  /** Three outcomes: true, false, or the whole filter ends here and rejects. */
  datatype Verdict = Answer(value: bool, regs: Regs) | Abort(why: Stop)

  function EvalTest(t: Test, r: Regs, p: Packet): Verdict {
    match ExecAll(t.stmts, r, p)
    case Next(r') => Answer(Taken(t.branch, r'), r')
    case Halt(why) => Abort(why)
  }

  /** No test has a bad memory index or a zero constant divisor. */
  predicate TestsDefined(e: Expr) {
    match e
    case Leaf(t) => AllDefined(t.stmts)
    case AndThen(left, right) => TestsDefined(left) && TestsDefined(right)
    case OrElse(left, right) => TestsDefined(left) && TestsDefined(right)
    case Not(inner) => TestsDefined(inner)
  }

  /** Left to right, stopping as soon as the value is known. An abort passes every operator, Not included. */
  function Eval(e: Expr, r: Regs, p: Packet): Verdict {
    match e
    case Leaf(t) => EvalTest(t, r, p)
    case AndThen(left, right) =>
      (match Eval(left, r, p)
       case Answer(true, r') => Eval(right, r', p)
       case v => v)
    case OrElse(left, right) =>
      (match Eval(left, r, p)
       case Answer(false, r') => Eval(right, r', p)
       case v => v)
    case Not(inner) =>
      (match Eval(inner, r, p)
       case Answer(v, r') => Answer(!v, r')
       case v => v)
  }

  // ---- The jump table -------------------------------------------------------

  function Leaves(e: Expr): (n: nat)
    ensures n >= 1
  {
    match e
    case Leaf(_) => 1
    case AndThen(left, right) => Leaves(left) + Leaves(right)
    case OrElse(left, right) => Leaves(left) + Leaves(right)
    case Not(inner) => Leaves(inner)
  }

  /** The i-th test from the left. */
  function LeafAt(e: Expr, i: nat): Test
    requires i < Leaves(e)
  {
    match e
    case Leaf(t) => t
    case Not(inner) => LeafAt(inner, i)
    case AndThen(left, right) =>
      if i < Leaves(left) then LeafAt(left, i) else LeafAt(right, i - Leaves(left))
    case OrElse(left, right) =>
      if i < Leaves(left) then LeafAt(left, i) else LeafAt(right, i - Leaves(left))
  }

  /** The most instructions that the tests can take: statements, the jump, and a long jump for each branch. */
  function InsnsOf(e: Expr): nat {
    match e
    case Leaf(t) => |t.stmts| + 3
    case AndThen(left, right) => InsnsOf(left) + InsnsOf(right)
    case OrElse(left, right) => InsnsOf(left) + InsnsOf(right)
    case Not(inner) => InsnsOf(inner)
  }

  lemma {:induction false} LeafDefined(e: Expr, i: nat)
    requires i < Leaves(e) && TestsDefined(e)
    ensures AllDefined(LeafAt(e, i).stmts)
  {
    match e {
      case Leaf(_) =>
      case Not(inner) => LeafDefined(inner, i);
      case _ =>
        if i < Leaves(e.left) { LeafDefined(e.left, i); } else { LeafDefined(e.right, i - Leaves(e.left)); }
    }
  }

  /** Where a branch leads: on to another test, or out with the value of the whole expression. */
  datatype Exit = To(leaf: nat) | Out(value: bool)

  function ShiftExit(x: Exit, d: nat): Exit {
    match x case To(j) => To(j + d) case Out(v) => Out(v)
  }

  function Slot(e: Expr, i: nat, branch: bool): Exit
    requires i < Leaves(e)
  {
    match e
    case Leaf(_) => Out(branch)
    case Not(inner) =>
      (match Slot(inner, i, branch) case To(j) => To(j) case Out(v) => Out(!v))
    case AndThen(left, right) =>
      if i >= Leaves(left) then ShiftExit(Slot(right, i - Leaves(left), branch), Leaves(left))
      else if Slot(left, i, branch) == Out(true) then To(Leaves(left))
      else Slot(left, i, branch)
    case OrElse(left, right) =>
      if i >= Leaves(left) then ShiftExit(Slot(right, i - Leaves(left), branch), Leaves(left))
      else if Slot(left, i, branch) == Out(false) then To(Leaves(left))
      else Slot(left, i, branch)
  }

  /** Every edge goes to a later test, so the graph has no cycle. */
  lemma {:induction false} SlotsGoForward(e: Expr, i: nat, branch: bool)
    requires i < Leaves(e)
    ensures Slot(e, i, branch).To? ==> i < Slot(e, i, branch).leaf < Leaves(e)
  {
    match e {
      case Leaf(_) =>
      case Not(inner) => SlotsGoForward(inner, i, branch);
      case AndThen(left, right) =>
        if i < Leaves(left) { SlotsGoForward(left, i, branch); }
        else { SlotsGoForward(right, i - Leaves(left), branch); }
      case OrElse(left, right) =>
        if i < Leaves(left) { SlotsGoForward(left, i, branch); }
        else { SlotsGoForward(right, i - Leaves(left), branch); }
    }
  }

  /** Following the table from test i. */
  function Walk(e: Expr, i: nat, r: Regs, p: Packet): Verdict
    requires i < Leaves(e)
    decreases Leaves(e) - i
  {
    match EvalTest(LeafAt(e, i), r, p)
    case Abort(why) => Abort(why)
    case Answer(v, r') =>
      SlotsGoForward(e, i, v);
      match Slot(e, i, v)
      case Out(value) => Answer(value, r')
      case To(j) => Walk(e, j, r', p)
  }

  /** Following the table of a right operand inside the whole is following its own table. */
  lemma {:induction false} WalkRight(e: Expr, i: nat, r: Regs, p: Packet)
    requires e.AndThen? || e.OrElse?
    requires i < Leaves(e.right)
    ensures Walk(e, Leaves(e.left) + i, r, p) == Walk(e.right, i, r, p)
    decreases Leaves(e.right) - i
  {
    match EvalTest(LeafAt(e.right, i), r, p) {
      case Abort(_) =>
      case Answer(v, r') =>
        SlotsGoForward(e.right, i, v);
        match Slot(e.right, i, v) {
          case Out(_) =>
          case To(j) => WalkRight(e, j, r', p);
        }
    }
  }

  /** Inside the left operand the walk either leaves with the deciding value or goes on to the right. */
  lemma {:induction false} WalkLeft(e: Expr, i: nat, r: Regs, p: Packet)
    requires e.AndThen? || e.OrElse?
    requires i < Leaves(e.left)
    ensures Walk(e, i, r, p) ==
            match Walk(e.left, i, r, p)
            case Answer(v, r') => if v == e.AndThen? then Walk(e.right, 0, r', p) else Answer(v, r')
            case Abort(why) => Abort(why)
    decreases Leaves(e.left) - i
  {
    match EvalTest(LeafAt(e.left, i), r, p) {
      case Abort(_) =>
      case Answer(v, r') =>
        SlotsGoForward(e.left, i, v);
        match Slot(e.left, i, v) {
          case Out(_) => WalkRight(e, 0, r', p);
          case To(j) => WalkLeft(e, j, r', p);
        }
    }
  }

  lemma {:induction false} WalkNot(e: Expr, i: nat, r: Regs, p: Packet)
    requires e.Not? && i < Leaves(e)
    ensures Walk(e, i, r, p) ==
            match Walk(e.inner, i, r, p) case Answer(v, r') => Answer(!v, r') case Abort(why) => Abort(why)
    decreases Leaves(e) - i
  {
    match EvalTest(LeafAt(e, i), r, p) {
      case Abort(_) =>
      case Answer(v, r') =>
        SlotsGoForward(e.inner, i, v);
        match Slot(e.inner, i, v) {
          case Out(_) =>
          case To(j) => WalkNot(e, j, r', p);
        }
    }
  }

  /** The jump table decides exactly what left-to-right evaluation decides, registers included. */
  lemma {:induction false} WalkIsEval(e: Expr, r: Regs, p: Packet)
    ensures Walk(e, 0, r, p) == Eval(e, r, p)
  {
    match e {
      case Leaf(_) =>
      case Not(inner) =>
        WalkNot(e, 0, r, p);
        WalkIsEval(inner, r, p);
      case AndThen(left, right) =>
        WalkLeft(e, 0, r, p);
        WalkIsEval(left, r, p);
        if Eval(left, r, p).Answer? { WalkIsEval(right, Eval(left, r, p).regs, p); }
      case OrElse(left, right) =>
        WalkLeft(e, 0, r, p);
        WalkIsEval(left, r, p);
        if Eval(left, r, p).Answer? { WalkIsEval(right, Eval(left, r, p).regs, p); }
    }
  }

  // ---- Unresolved exits -----------------------------------------------------

  function Shift(s: seq<nat>, d: nat): (t: seq<nat>)
    ensures |t| == |s| && forall j :: 0 <= j < |s| ==> t[j] == s[j] + d
  {
    seq(|s|, j requires 0 <= j < |s| => s[j] + d)
  }

  /** The tests with a branch that leaves with value v, last test first: the order backpatching links them. */
  function Exits(e: Expr, v: bool): seq<nat> {
    match e
    case Leaf(_) => [0]
    case Not(inner) => Exits(inner, !v)
    case AndThen(left, right) =>
      Shift(Exits(right, v), Leaves(left)) + (if v then [] else Exits(left, v))
    case OrElse(left, right) =>
      Shift(Exits(right, v), Leaves(left)) + (if v then Exits(left, v) else [])
  }

  /** The sense bit of each block: it tells which of a block's branches is on the top block's true list. */
  function SenseAt(e: Expr, i: nat): bool
    requires i < Leaves(e)
  {
    match e
    case Leaf(_) => false
    case Not(inner) => if i == Leaves(inner) - 1 then !SenseAt(inner, i) else SenseAt(inner, i)
    case AndThen(left, right) =>
      if i >= Leaves(left) then SenseAt(right, i - Leaves(left))
      else if i == Leaves(left) - 1 then !SenseAt(left, i)
      else SenseAt(left, i)
    case OrElse(left, right) =>
      if i >= Leaves(left) then SenseAt(right, i - Leaves(left)) else SenseAt(left, i)
  }

  /** The branch of test i that is its link on the list for value v. */
  predicate LinkBranch(e: Expr, i: nat, v: bool)
    requires i < Leaves(e)
  {
    if i == Leaves(e) - 1 then SenseAt(e, i) != v else !SenseAt(e, i)
  }

  ghost predicate StrictlyDown(s: seq<nat>, top: nat) {
    |s| >= 1 && s[0] == top && forall j, k :: 0 <= j < k < |s| ==> s[j] > s[k]
  }

  /** Each list starts at the top block and goes down; it visits no block twice. */
  lemma {:induction false} ExitsGoDown(e: Expr, v: bool)
    ensures StrictlyDown(Exits(e, v), Leaves(e) - 1)
  {
    match e {
      case Leaf(_) =>
      case Not(inner) => ExitsGoDown(inner, !v);
      case AndThen(left, right) => ExitsGoDown(left, v); ExitsGoDown(right, v);
      case OrElse(left, right) => ExitsGoDown(left, v); ExitsGoDown(right, v);
    }
  }

  lemma ListEnds(e: Expr, v: bool)
    ensures |Exits(e, v)| >= 1 && Exits(e, v)[0] == Leaves(e) - 1
    ensures forall j :: 0 <= j < |Exits(e, v)| ==> Exits(e, v)[j] < Leaves(e)
  {
    ExitsGoDown(e, v);
    var xs := Exits(e, v);
    forall j | 0 <= j < |xs| ensures xs[j] < Leaves(e) {
      assert j > 0 ==> xs[0] > xs[j];
    }
  }

  lemma DownPair(e: Expr, v: bool, j: nat, k: nat)
    requires j < k < |Exits(e, v)|
    ensures Exits(e, v)[j] > Exits(e, v)[k]
  {
    ExitsGoDown(e, v);
  }

  /** A branch is unresolved with value v exactly if its test is on list v and the branch is its link there. */
  lemma {:induction false} OpenSlots(e: Expr, i: nat, branch: bool, v: bool)
    requires i < Leaves(e)
    ensures Slot(e, i, branch) == Out(v) <==> i in Exits(e, v) && branch == LinkBranch(e, i, v)
  {
    match e {
      case Leaf(_) =>
      case Not(inner) => OpenSlots(inner, i, branch, !v);
      case _ =>
        ExitsSplit(e, i, v);
        if i < Leaves(e.left) { OpenSlots(e.left, i, branch, v); }
        else { OpenSlots(e.right, i - Leaves(e.left), branch, v); }
    }
  }

  /** Which operand an exit of a connective comes from. */
  lemma ExitsSplit(e: Expr, i: nat, v: bool)
    requires (e.AndThen? || e.OrElse?) && i < Leaves(e)
    ensures i < Leaves(e.left) ==> (i in Exits(e, v) <==> v != e.AndThen? && i in Exits(e.left, v))
    ensures i >= Leaves(e.left) ==> (i in Exits(e, v) <==> i - Leaves(e.left) in Exits(e.right, v))
  {
    hide Exits;
    var n, xl, xr := Leaves(e.left), Exits(e.left, v), Exits(e.right, v);
    assert Exits(e, v) == Shift(xr, n) + (if v == e.AndThen? then [] else xl) by { ExitsOf(e, v); }
    InShift(xr, n, i);
    ListEnds(e.left, v);
  }

  lemma ExitsOf(e: Expr, v: bool)
    requires e.AndThen? || e.OrElse?
    ensures Exits(e, v) ==
            Shift(Exits(e.right, v), Leaves(e.left)) + (if v == e.AndThen? then [] else Exits(e.left, v))
  {
  }

  lemma InShift(s: seq<nat>, d: nat, i: nat)
    ensures i in Shift(s, d) <==> i >= d && i - d in s
  {
    if i >= d && i - d in s {
      var j :| 0 <= j < |s| && s[j] == i - d;
      assert Shift(s, d)[j] == i;
    }
  }

  /** An unresolved branch is on exactly one list, once. */
  lemma OnExactlyOneList(e: Expr, i: nat, branch: bool)
    requires i < Leaves(e) && Slot(e, i, branch).Out?
    ensures var v := Slot(e, i, branch).value;
            && multiset(Exits(e, v))[i] == 1
            && !(i in Exits(e, !v) && branch == LinkBranch(e, i, !v))
  {
    var v := Slot(e, i, branch).value;
    OpenSlots(e, i, branch, v);
    OpenSlots(e, i, branch, !v);
    ExitsGoDown(e, v);
    OnceIfDown(Exits(e, v), i);
  }

  lemma {:induction false} OnceIfDown(s: seq<nat>, i: nat)
    requires i in s && forall j, k :: 0 <= j < k < |s| ==> s[j] > s[k]
    ensures multiset(s)[i] == 1
  {
    assert s == [s[0]] + s[1..];
    if s[0] == i {
      assert i !in s[1..];
      assert multiset(s[1..])[i] == 0;
    } else {
      assert i in s[1..];
      OnceIfDown(s[1..], i);
    }
  }

  /** Statements put in front of the first test. */
  function Prefixed(e: Expr, ss: seq<Stmt>): (e': Expr)
    ensures Leaves(e') == Leaves(e)
  {
    match e
    case Leaf(t) => Leaf(t.(stmts := ss + t.stmts))
    case Not(inner) => Not(Prefixed(inner, ss))
    case AndThen(left, right) => AndThen(Prefixed(left, ss), right)
    case OrElse(left, right) => OrElse(Prefixed(left, ss), right)
  }

  lemma {:induction false} PrefixNothing(e: Expr)
    ensures Prefixed(e, []) == e
  {
    match e {
      case Leaf(t) => assert [] + t.stmts == t.stmts;
      case Not(i) => PrefixNothing(i);
      case AndThen(l, _) => PrefixNothing(l);
      case OrElse(l, _) => PrefixNothing(l);
    }
  }

  /** They run once, before anything else. */
  lemma {:induction false} PrefixRunsFirst(e: Expr, ss: seq<Stmt>, r: Regs, p: Packet)
    ensures Eval(Prefixed(e, ss), r, p) ==
            match ExecAll(ss, r, p) case Next(r') => Eval(e, r', p) case Halt(why) => Abort(why)
  {
    match e {
      case Leaf(t) => ExecAllAppend(ss, t.stmts, r, p);
      case Not(inner) => PrefixRunsFirst(inner, ss, r, p);
      case AndThen(left, _) => PrefixRunsFirst(left, ss, r, p);
      case OrElse(left, _) => PrefixRunsFirst(left, ss, r, p);
    }
  }

  /** They change the first test's statements and nothing else of the jump table. */
  lemma {:induction false} PrefixKeepsTable(e: Expr, ss: seq<Stmt>)
    ensures forall i, branch :: 0 <= i < Leaves(e) ==> Slot(Prefixed(e, ss), i, branch) == Slot(e, i, branch)
    ensures forall i :: 0 <= i < Leaves(e) ==> SenseAt(Prefixed(e, ss), i) == SenseAt(e, i)
    ensures forall i :: 0 <= i < Leaves(e) ==>
              LeafAt(Prefixed(e, ss), i) ==
              if i == 0 then LeafAt(e, 0).(stmts := ss + LeafAt(e, 0).stmts) else LeafAt(e, i)
    ensures forall v :: Exits(Prefixed(e, ss), v) == Exits(e, v)
  {
    match e {
      case Leaf(_) =>
      case Not(inner) => PrefixKeepsTable(inner, ss);
      case AndThen(left, _) => PrefixKeepsTable(left, ss);
      case OrElse(left, _) => PrefixKeepsTable(left, ss);
    }
  }
}
