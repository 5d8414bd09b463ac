/** From the branching graph to the flat program: sizing, placing from the tail, and long jumps. */
module Linearize {
  import opened Words
  import opened Bpf
  import opened Conditions
  import opened BlockGraph
  import Interpreter
  import Validator

  // ---- The graph as a value -----------------------------------------------------------

  /** A block, with its branches as positions in a list of blocks; -1 for none. */
  datatype Node = Node(stmts: seq<Stmt>, last: Last, jt: int, jf: int)

  ghost function IndexOf(bs: seq<Block>, b: Block?): (i: int)
    ensures -1 <= i < |bs| && (i >= 0 ==> bs[i] == b) && (i < 0 ==> b !in bs)
  {
    if bs == [] then -1 else if bs[|bs| - 1] == b then |bs| - 1 else IndexOf(bs[..|bs| - 1], b)
  }

  ghost function NodesOf(bs: seq<Block>, all: seq<Block>): (flow: seq<Node>)
    reads bs`stmts, bs`s, bs`jt, bs`jf
    ensures |flow| == |bs|
    ensures forall i :: 0 <= i < |bs| ==>
      flow[i] == Node(bs[i].stmts, bs[i].s, IndexOf(all, bs[i].jt), IndexOf(all, bs[i].jf))
  {
    if bs == [] then []
    else [Node(bs[0].stmts, bs[0].s, IndexOf(all, bs[0].jt), IndexOf(all, bs[0].jf))] + NodesOf(bs[1..], all)
  }

  ghost function Flow(bs: seq<Block>): (flow: seq<Node>)
    reads bs`stmts, bs`s, bs`jt, bs`jf
    ensures |flow| == |bs|
  {
    NodesOf(bs, bs)
  }

  /** Both branches of a conditional jump lead to later blocks; a return has none. */
  ghost predicate Forward(flow: seq<Node>) {
    forall i :: 0 <= i < |flow| ==> ForwardAt(flow, i)
  }

  ghost predicate ForwardAt(flow: seq<Node>, i: nat)
    requires i < |flow|
  {
    match flow[i].last
    case Ret(_) => flow[i].jt == flow[i].jf == -1
    case Jmp(_) => i < flow[i].jt < |flow| && i < flow[i].jf < |flow|
  }

  /** Where a pass over the graph goes from block i. */
  ghost function Reach(flow: seq<Node>, i: int): (s: set<nat>)
    requires Forward(flow) && i < |flow|
    ensures forall j <- s :: i <= j < |flow|
    decreases if i < 0 then 0 else |flow| - i
  {
    if i < 0 then {}
    else assert ForwardAt(flow, i); {i} + Reach(flow, flow[i].jt) + Reach(flow, flow[i].jf)
  }

  /** Branches from these blocks stay among them. */
  ghost predicate Closed(flow: seq<Node>, s: set<nat>) {
    forall i <- s :: i < |flow| && ClosedAt(flow, s, i)
  }

  ghost predicate ClosedAt(flow: seq<Node>, s: set<nat>, i: nat)
    requires i < |flow|
  {
    (flow[i].jt >= 0 ==> flow[i].jt in s) && (flow[i].jf >= 0 ==> flow[i].jf in s)
  }

  lemma {:induction false} ReachStays(flow: seq<Node>, s: set<nat>, i: int)
    requires Forward(flow) && Closed(flow, s) && i < |flow| && (i >= 0 ==> i in s)
    ensures Reach(flow, i) <= s
    decreases if i < 0 then 0 else |flow| - i
  {
    if i >= 0 {
      assert ForwardAt(flow, i) && ClosedAt(flow, s, i);
      ReachStays(flow, s, flow[i].jt);
      ReachStays(flow, s, flow[i].jf);
    }
  }

  // ---- Sizes -----------------------------------------------------------------------------

  /** The sum of the sizes at these positions. */
  ghost function Total(sizes: seq<nat>, s: set<nat>): nat {
    if sizes == [] then 0
    else Total(sizes[..|sizes| - 1], s) + (if |sizes| - 1 in s then sizes[|sizes| - 1] else 0)
  }

  lemma {:induction false} TotalOfUnion(sizes: seq<nat>, s: set<nat>, t: set<nat>)
    requires s !! t
    ensures Total(sizes, s + t) == Total(sizes, s) + Total(sizes, t)
  {
    if sizes != [] { TotalOfUnion(sizes[..|sizes| - 1], s, t); }
  }

  lemma {:induction false} TotalOfOne(sizes: seq<nat>, i: nat)
    requires i < |sizes|
    ensures Total(sizes, {i}) == sizes[i]
  {
    if i < |sizes| - 1 { TotalOfOne(sizes[..|sizes| - 1], i); } else { TotalOfNone(sizes[..i], {i}); }
  }

  lemma {:induction false} TotalOfNone(sizes: seq<nat>, s: set<nat>)
    requires forall i <- s :: i >= |sizes|
    ensures Total(sizes, s) == 0
  {
    if sizes != [] { TotalOfNone(sizes[..|sizes| - 1], s); }
  }

  lemma {:induction false} TotalGrows(sizes: seq<nat>, i: nat, s: set<nat>)
    requires i < |sizes| && i in s
    ensures Total(sizes[i := sizes[i] + 1], s) == Total(sizes, s) + 1
  {
    var n := |sizes| - 1;
    var more := sizes[i := sizes[i] + 1];
    if i < n {
      assert more[..n] == sizes[..n][i := sizes[i] + 1];
      TotalGrows(sizes[..n], i, s);
    } else {
      assert more[..n] == sizes[..n];
    }
  }

  lemma {:induction false} TotalBounded(sizes: seq<nat>, most: seq<nat>, s: set<nat>)
    requires |sizes| == |most| && forall i :: 0 <= i < |sizes| ==> sizes[i] <= most[i]
    ensures Total(sizes, s) <= Total(most, s)
  {
    if sizes != [] { TotalBounded(sizes[..|sizes| - 1], most[..|most| - 1], s); }
  }

  ghost function Everything(n: nat): (s: set<nat>)
    ensures forall i: nat :: i in s <==> i < n
  {
    if n == 0 then {} else Everything(n - 1) + {n - 1}
  }

  /** The instructions each block takes: its statements, its last one, and its long jumps. */
  ghost function Sizes(bs: seq<Block>): (sizes: seq<nat>)
    reads bs`stmts, bs`longjt, bs`longjf
    ensures |sizes| == |bs|
    ensures forall i :: 0 <= i < |bs| ==> sizes[i] == |bs[i].stmts| + 1 + bs[i].longjt + bs[i].longjf
  {
    if bs == [] then [] else [|bs[0].stmts| + 1 + bs[0].longjt + bs[0].longjf] + Sizes(bs[1..])
  }

  ghost function MostSizes(flow: seq<Node>): (sizes: seq<nat>)
    ensures |sizes| == |flow| && forall i :: 0 <= i < |flow| ==> sizes[i] == |flow[i].stmts| + 3
  {
    seq(|flow|, i requires 0 <= i < |flow| => |flow[i].stmts| + 3)
  }

  // ---- Marks -----------------------------------------------------------------------------

  class Icode {
    var root: Block
    var curMark: nat

    constructor (root: Block)
      ensures this.root == root && curMark == 0
    {
      this.root, this.curMark := root, 0;
    }
  }

  ghost function Marked(bs: seq<Block>, cur: nat): set<nat>
    reads bs`mark
  {
    set i: nat | i < |bs| && bs[i].mark == cur
  }

  ghost predicate MarksUpTo(bs: seq<Block>, cur: nat)
    reads bs`mark
  {
    forall b <- bs :: b.mark <= cur
  }

  /** A list of separate blocks, in an order that every branch follows. */
  ghost predicate Layered(bs: seq<Block>, flow: seq<Node>)
    reads bs`stmts, bs`s, bs`jt, bs`jf
  {
    Distinct(bs) && flow == Flow(bs) && Forward(flow) && NoneMeansNull(bs)
  }

  ghost predicate NoneMeansNull(bs: seq<Block>)
    reads bs`jt, bs`jf
  {
    forall b <- bs :: NoneMeansNullAt(bs, b)
  }

  ghost predicate NoneMeansNullAt(bs: seq<Block>, b: Block)
    reads b`jt, b`jf
  {
    (b.jt != null ==> b.jt in bs) && (b.jf != null ==> b.jf in bs)
  }

  /** Visiting block i and then its branches, in either order. */
  lemma Visit(flow: seq<Node>, sizes: seq<nat>, m: set<nat>, i: nat, a: int, b: int)
    requires Forward(flow) && |sizes| == |flow| && i < |flow| && i !in m
    requires (a == flow[i].jt && b == flow[i].jf) || (a == flow[i].jf && b == flow[i].jt)
    ensures a < |flow| && b < |flow|
    ensures var m1 := m + {i}; var m2 := m1 + Reach(flow, a);
      && m2 + Reach(flow, b) == m + Reach(flow, i)
      && Total(sizes, Reach(flow, i) - m)
         == sizes[i] + Total(sizes, Reach(flow, a) - m1) + Total(sizes, Reach(flow, b) - m2)
  {
    assert ForwardAt(flow, i);
    var m1 := m + {i};
    var ra, rb := Reach(flow, a), Reach(flow, b);
    assert Reach(flow, i) == {i} + ra + rb;
    assert Reach(flow, i) - m == ({i} + (ra - m1)) + (rb - (m1 + ra));
    TotalOfUnion(sizes, {i} + (ra - m1), rb - (m1 + ra));
    TotalOfUnion(sizes, {i}, ra - m1);
    TotalOfOne(sizes, i);
  }

  /** A pass is about to visit block i: the blocks that are done are closed under branches, and the others it has
      marked are on the way to block i. */
  ghost predicate Visiting(flow: seq<Node>, m: set<nat>, done: set<nat>, i: int) {
    done <= m && Closed(flow, done) && forall j <- m :: j in done || i < 0 || j < i
  }

  lemma VisitFirst(flow: seq<Node>, m: set<nat>, done: set<nat>, i: nat, a: int, b: int)
    requires Forward(flow) && i < |flow| && i !in m && Visiting(flow, m, done, i)
    requires (a == flow[i].jt && b == flow[i].jf) || (a == flow[i].jf && b == flow[i].jt)
    ensures a < |flow| && b < |flow| && i !in done && Visiting(flow, m + {i}, done, a)
  {
    assert ForwardAt(flow, i);
  }

  lemma VisitSecond(flow: seq<Node>, sizes: seq<nat>, m: set<nat>, m2: set<nat>, done: set<nat>,
                    i: nat, a: int, b: int, n: nat)
    requires Forward(flow) && i < |flow| && i !in m && Visiting(flow, m, done, i)
    requires (a == flow[i].jt && b == flow[i].jf) || (a == flow[i].jf && b == flow[i].jt)
    requires Swept(flow, sizes, m + {i}, m2, done, a, n)
    ensures a < |flow| && Visiting(flow, m2, done + Reach(flow, a), b)
  {
    assert ForwardAt(flow, i);
  }

  lemma VisitDone(flow: seq<Node>, done: set<nat>, i: nat, a: int, b: int)
    requires Forward(flow) && i < |flow|
    requires (a == flow[i].jt && b == flow[i].jf) || (a == flow[i].jf && b == flow[i].jt)
    requires a < |flow| && b < |flow| && Closed(flow, done + Reach(flow, a) + Reach(flow, b))
    ensures done + Reach(flow, a) + Reach(flow, b) + {i} == done + Reach(flow, i) && Closed(flow, done + Reach(flow, i))
  {
    assert ForwardAt(flow, i);
    var s, t := done + Reach(flow, a) + Reach(flow, b), done + Reach(flow, i);
    assert t == s + {i};
    forall j <- t ensures j < |flow| && ClosedAt(flow, t, j) {
      assert j != i ==> ClosedAt(flow, s, j);
    }
  }

  /** Marks one block. */
  method Mark(ic: Icode, p: Block, ghost bs: seq<Block>, ghost i: nat)
    requires i < |bs| && bs[i] == p && Distinct(bs) && MarksUpTo(bs, ic.curMark)
    modifies p`mark
    ensures MarksUpTo(bs, ic.curMark) && Marked(bs, ic.curMark) == old(Marked(bs, ic.curMark)) + {i}
  {
    AllDiffer(bs);
    p.mark := ic.curMark;
  }

  lemma LayeredMeans(bs: seq<Block>, flow: seq<Node>)
    requires Layered(bs, flow)
    ensures Forward(flow) && |flow| == |bs|
  {
  }

  lemma Children(bs: seq<Block>, flow: seq<Node>, i: nat)
    requires Layered(bs, flow) && i < |bs|
    ensures |flow| == |bs| && flow[i].stmts == bs[i].stmts && flow[i].last == bs[i].s
    ensures flow[i].jt == IndexOf(bs, bs[i].jt) && flow[i].jf == IndexOf(bs, bs[i].jf)
    ensures (bs[i].jt == null || flow[i].jt >= 0) && (bs[i].jf == null || flow[i].jf >= 0)
    ensures ForwardAt(flow, i) && Distinct(bs) && Forward(flow)
  {
    assert bs[i] in bs;
  }

  /** A pass has been over everything that block i reaches, and n instructions are in the blocks it marked. */
  ghost predicate Swept(flow: seq<Node>, sizes: seq<nat>, m: set<nat>, m': set<nat>, done: set<nat>, i: int, n: nat) {
    && Forward(flow) && i < |flow|
    && m' == m + Reach(flow, i) && Closed(flow, done + Reach(flow, i))
    && n == Total(sizes, Reach(flow, i) - m)
  }

  /** A missing branch, or a block marked before, has been dealt with. */
  lemma SweptAlready(flow: seq<Node>, sizes: seq<nat>, m: set<nat>, done: set<nat>, i: int)
    requires Forward(flow) && i < |flow| && Visiting(flow, m, done, i) && (i >= 0 ==> i in m)
    ensures Swept(flow, sizes, m, m, done, i, 0)
  {
    ReachStays(flow, done, i);
    assert Reach(flow, i) - m == {} && m == m + Reach(flow, i) && done + Reach(flow, i) == done;
    TotalOfNone(sizes, {});
  }

  lemma SweptBlock(flow: seq<Node>, sizes: seq<nat>, m: set<nat>, m2: set<nat>, m3: set<nat>, done: set<nat>,
                   i: nat, a: int, b: int, t: nat, f: nat)
    requires Forward(flow) && i < |flow| == |sizes| && i !in m
    requires (a == flow[i].jt && b == flow[i].jf) || (a == flow[i].jf && b == flow[i].jt)
    requires Swept(flow, sizes, m + {i}, m2, done, a, t)
    requires Swept(flow, sizes, m2, m3, done + Reach(flow, a), b, f)
    ensures Swept(flow, sizes, m, m3, done, i, sizes[i] + t + f)
  {
    hide Closed, Reach, Total, Forward;
    VisitDone(flow, done, i, a, b);
    Visit(flow, sizes, m, i, a, b);
  }

  lemma InMarked(bs: seq<Block>, cur: nat, p: Block?, i: int)
    requires i == IndexOf(bs, p) && (p == null || i >= 0)
    ensures p != null ==> (i in Marked(bs, cur) <==> p.mark == cur)
  {
  }

  /** What a counting pass reads and changes. */
  datatype Tally = Tally(sizes: seq<nat>, marked: set<nat>)

  ghost function TallyOf(ic: Icode, bs: seq<Block>): Tally
    reads ic, bs`stmts, bs`longjt, bs`longjf, bs`mark
  {
    Tally(Sizes(bs), Marked(bs, ic.curMark))
  }

  ghost predicate ToCount(flow: seq<Node>, t: Tally, done: set<nat>, i: int) {
    Forward(flow) && i < |flow| == |t.sizes| && Visiting(flow, t.marked, done, i)
  }

  ghost predicate Counted(flow: seq<Node>, t: Tally, t': Tally, done: set<nat>, i: int, n: nat) {
    t'.sizes == t.sizes && Swept(flow, t.sizes, t.marked, t'.marked, done, i, n)
  }

  lemma CountedAlready(flow: seq<Node>, t: Tally, done: set<nat>, i: int)
    requires ToCount(flow, t, done, i) && (i >= 0 ==> i in t.marked)
    ensures Counted(flow, t, t, done, i, 0)
  {
    SweptAlready(flow, t.sizes, t.marked, done, i);
  }

  lemma ToCountFirst(flow: seq<Node>, t: Tally, done: set<nat>, i: nat)
    requires ToCount(flow, t, done, i) && i !in t.marked
    ensures ToCount(flow, t.(marked := t.marked + {i}), done, flow[i].jt)
  {
    VisitFirst(flow, t.marked, done, i, flow[i].jt, flow[i].jf);
  }

  lemma ToCountSecond(flow: seq<Node>, t: Tally, t2: Tally, done: set<nat>, i: nat, n: nat)
    requires ToCount(flow, t, done, i) && i !in t.marked
    requires Counted(flow, t.(marked := t.marked + {i}), t2, done, flow[i].jt, n)
    ensures flow[i].jt < |flow| && ToCount(flow, t2, done + Reach(flow, flow[i].jt), flow[i].jf)
  {
    hide Visiting;
    VisitFirst(flow, t.marked, done, i, flow[i].jt, flow[i].jf);
    VisitSecond(flow, t.sizes, t.marked, t2.marked, done, i, flow[i].jt, flow[i].jf, n);
  }

  lemma CountedBlock(flow: seq<Node>, t: Tally, t2: Tally, t3: Tally, done: set<nat>, i: nat, n: nat, m: nat)
    requires ToCount(flow, t, done, i) && i !in t.marked && flow[i].jt < |flow|
    requires Counted(flow, t.(marked := t.marked + {i}), t2, done, flow[i].jt, n)
    requires Counted(flow, t2, t3, done + Reach(flow, flow[i].jt), flow[i].jf, m)
    ensures Counted(flow, t, t3, done, i, t.sizes[i] + n + m)
  {
    SweptBlock(flow, t.sizes, t.marked, t2.marked, t3.marked, done, i, flow[i].jt, flow[i].jf, n, m);
  }

  /** A visit to block i begins. */
  method MarkTally(ic: Icode, p: Block, ghost bs: seq<Block>, ghost i: nat)
    requires i < |bs| && bs[i] == p && Distinct(bs) && MarksUpTo(bs, ic.curMark)
    modifies p`mark
    ensures MarksUpTo(bs, ic.curMark)
    ensures TallyOf(ic, bs) == old(TallyOf(ic, bs)).(marked := old(TallyOf(ic, bs)).marked + {i})
  {
    hide Sizes, Marked, Distinct, MarksUpTo;
    Mark(ic, p, bs, i);
  }

  lemma TallyIs(ic: Icode, bs: seq<Block>, p: Block?, i: int)
    requires i == IndexOf(bs, p) && (p == null || i >= 0)
    ensures p != null ==> (i in TallyOf(ic, bs).marked <==> p.mark == ic.curMark)
    ensures p != null ==> i < |TallyOf(ic, bs).sizes|
    ensures p != null ==> TallyOf(ic, bs).sizes[i] == |p.stmts| + 1 + p.longjt + p.longjf
  {
  }

  /** The number of instructions from p on, each block counted once. */
  method CountStmts(ic: Icode, p: Block?, ghost bs: seq<Block>, ghost flow: seq<Node>, ghost i: int,
                    ghost done: set<nat>)
    returns (n: nat)
    requires Layered(bs, flow) && i == IndexOf(bs, p) && (p == null || i >= 0)
    requires MarksUpTo(bs, ic.curMark) && ToCount(flow, TallyOf(ic, bs), done, i)
    modifies bs`mark
    ensures MarksUpTo(bs, ic.curMark)
    ensures Counted(flow, old(TallyOf(ic, bs)), TallyOf(ic, bs), done, i, n)
    decreases if i < 0 then 0 else |bs| - i
  {
    hide Layered, ToCount, Counted, Reach, IndexOf, Forward, Distinct, MarksUpTo, TallyOf;
    ghost var t := TallyOf(ic, bs);
    TallyIs(ic, bs, p, i);
    if p == null || p.mark == ic.curMark {
      CountedAlready(flow, t, done, i);
      return 0;
    }
    Children(bs, flow, i);
    ToCountFirst(flow, t, done, i);
    MarkTally(ic, p, bs, i);
    var m := CountStmts(ic, p.jt, bs, flow, flow[i].jt, done);
    ghost var t2 := TallyOf(ic, bs);
    ToCountSecond(flow, t, t2, done, i, m);
    n := CountStmts(ic, p.jf, bs, flow, flow[i].jf, done + Reach(flow, flow[i].jt));
    CountedBlock(flow, t, t2, TallyOf(ic, bs), done, i, m, n);
    n := |p.stmts| + (m + n) + 1 + p.longjt + p.longjf;
  }

  // ---- Placed blocks ------------------------------------------------------------------------

  function LastInsn(s: Last): Insn {
    match s
    case Ret(k) => Insn(RET, 0, 0, k)
    case Jmp(ByK(cond, k)) => Insn(JMP + CondBits(cond), 0, 0, k)
    case Jmp(ByX(cond)) => Insn(JMP + CondBits(cond) + 8, 0, 0, 0)
  }

  /** The statements stand in the program from this place on. */
  ghost predicate Coded(code: seq<Insn>, at: nat, ss: seq<Stmt>) {
    at + |ss| <= |code| && forall k :: at <= k < at + |ss| ==> code[k] == Encode(ss[k - at])
  }

  /** A branch of hop instructions after position b arrives at the target, on its own or by one long jump. */
  ghost predicate Leads(code: seq<Insn>, b: nat, hop: nat, target: nat) {
    var q := b + 1 + hop;
    || q == target
    || (q < |code| && q < target && code[q] == Insn(JMP, 0, 0, code[q].k) && code[q].k == target - q - 1 <= INT_MAX)
  }

  /** A block stands at this place: its statements, then its last one, whose branches lead to jt and jf. */
  ghost predicate BlockAt(code: seq<Insn>, at: nat, stmts: seq<Stmt>, last: Last, jt: nat, jf: nat) {
    var b := at + |stmts|;
    && b < |code| && Coded(code, at, stmts)
    && code[b] == LastInsn(last).(jt := code[b].jt, jf := code[b].jf)
    && (last.Jmp? ==> Leads(code, b, code[b].jt, jt) && Leads(code, b, code[b].jf, jf))
  }

  function OffsetAt(offset: seq<nat>, j: int): nat {
    if 0 <= j < |offset| then offset[j] else 0
  }

  ghost predicate Placed(code: seq<Insn>, flow: seq<Node>, offset: seq<nat>, j: nat)
    requires j < |flow| == |offset|
  {
    var node := flow[j];
    BlockAt(code, offset[j], node.stmts, node.last, OffsetAt(offset, node.jt), OffsetAt(offset, node.jf))
  }

  ghost predicate PlacedAll(code: seq<Insn>, flow: seq<Node>, offset: seq<nat>, done: set<nat>, tail: nat) {
    |offset| == |flow| && forall j <- done :: j < |flow| && offset[j] >= tail && Placed(code, flow, offset, j)
  }

  /** The program from tail on, and the offsets of these blocks, are as they were. */
  ghost predicate Kept(code: seq<Insn>, code': seq<Insn>, tail: nat, offset: seq<nat>, offset': seq<nat>,
                       done: set<nat>) {
    && |code| == |code'| && (forall k :: tail <= k < |code| ==> code'[k] == code[k])
    && |offset| == |offset'| && forall j <- done :: j < |offset| ==> offset'[j] == offset[j]
  }

  lemma PlacedKept(code: seq<Insn>, code': seq<Insn>, flow: seq<Node>, offset: seq<nat>, offset': seq<nat>,
                   done: set<nat>, tail: nat, tail': nat)
    requires PlacedAll(code, flow, offset, done, tail) && Closed(flow, done) && tail' <= tail
    requires Kept(code, code', tail, offset, offset', done)
    ensures PlacedAll(code', flow, offset', done, tail')
  {
    forall j <- done ensures j < |flow| && offset'[j] >= tail' && Placed(code', flow, offset', j) {
      assert Placed(code, flow, offset, j) && ClosedAt(flow, done, j);
    }
  }

  ghost function Offsets(bs: seq<Block>): (offset: seq<nat>)
    reads bs`offset
    ensures |offset| == |bs| && forall i :: 0 <= i < |bs| ==> offset[i] == bs[i].offset
  {
    if bs == [] then [] else [bs[0].offset] + Offsets(bs[1..])
  }

  class ConvState {
    const fstart: array<Insn>
    var ftail: nat

    constructor (fstart: array<Insn>)
      ensures this.fstart == fstart && ftail == fstart.Length
    {
      this.fstart, this.ftail := fstart, fstart.Length;
    }
  }

  ghost predicate SameBut(code: seq<Insn>, code': seq<Insn>, from: nat, to: nat) {
    |code| == |code'| && forall k :: 0 <= k < |code| && !(from <= k < to) ==> code'[k] == code[k]
  }

  const BLANK := Insn(0, 0, 0, 0)

  /** Between these places there is nothing yet. */
  ghost predicate Blank(code: seq<Insn>, from: nat, to: nat) {
    forall k :: from <= k < to && k < |code| ==> code[k] == BLANK
  }

  method PutStmts(fp: array<Insn>, at: nat, ss: seq<Stmt>)
    requires at + |ss| <= fp.Length
    modifies fp
    ensures Coded(fp[..], at, ss) && SameBut(old(fp[..]), fp[..], at, at + |ss|)
  {
    var dst := at;
    while dst < at + |ss|
      invariant at <= dst <= at + |ss| && Coded(fp[..], at, ss[..dst - at])
      invariant SameBut(old(fp[..]), fp[..], at, dst)
    {
      fp[dst] := Encode(ss[dst - at]);
      dst := dst + 1;
    }
    assert ss[..dst - at] == ss;
  }

  /** Between these places there are only long jumps, to places in the program, or nothing. */
  ghost predicate LongJumps(code: seq<Insn>, from: nat, to: nat) {
    forall k :: from <= k < to && k < |code| ==>
      code[k] == BLANK || (code[k] == Insn(JMP, 0, 0, code[k].k) && k + 1 + code[k].k < |code|)
  }

  /** A block's branches, once its targets have their places. If a target is too far for the branch and no room was
      set aside for a long jump, that is noted in the block and the attempt fails. */
  method PutBranches(p: Block, jt: Block, jf: Block, fp: array<Insn>) returns (ok: bool)
    requires fp.Length <= INT_MAX && p.offset + |p.stmts| + p.longjt + p.longjf < fp.Length
    requires p.offset + |p.stmts| + p.longjt + p.longjf < jt.offset < fp.Length
    requires p.offset + |p.stmts| + p.longjt + p.longjf < jf.offset < fp.Length
    requires Blank(fp[..], p.offset + |p.stmts| + 1, p.offset + |p.stmts| + 1 + p.longjt + p.longjf)
    modifies fp, p`longjt, p`longjf
    ensures ok ==> LongJumps(fp[..], p.offset + |p.stmts| + 1, p.offset + |p.stmts| + 1 + p.longjt + p.longjf)
    ensures var b := p.offset + |p.stmts|;
      && SameBut(old(fp[..]), fp[..], b, b + 1 + old(p.longjt + p.longjf))
      && fp[b] == old(fp[b]).(jt := fp[b].jt, jf := fp[b].jf)
    ensures ok ==> p.longjt == old(p.longjt) && p.longjf == old(p.longjf)
    ensures ok ==> Leads(fp[..], p.offset + |p.stmts|, fp[p.offset + |p.stmts|].jt, jt.offset)
    ensures ok ==> Leads(fp[..], p.offset + |p.stmts|, fp[p.offset + |p.stmts|].jf, jf.offset)
    ensures !ok ==> p.longjt + p.longjf == old(p.longjt + p.longjf) + 1
  {
    var dst := p.offset + |p.stmts|;
    var extrajmps: byte := 0;
    var off := jt.offset - dst - 1;
    if off >= 256 {
      if p.longjt == 0 {
        p.longjt := 1;
        return false;
      }
      fp[dst] := fp[dst].(jt := extrajmps);
      extrajmps := extrajmps + 1;
      fp[dst + extrajmps] := Insn(JMP, 0, 0, off - extrajmps);
    } else {
      fp[dst] := fp[dst].(jt := off);
    }
    assert Leads(fp[..], dst, fp[dst].jt, jt.offset);
    off := jf.offset - dst - 1;
    if off >= 256 {
      if p.longjf == 0 {
        p.longjf := 1;
        return false;
      }
      fp[dst] := fp[dst].(jf := extrajmps);
      extrajmps := extrajmps + 1;
      fp[dst + extrajmps] := Insn(JMP, 0, 0, off - extrajmps);
    } else {
      fp[dst] := fp[dst].(jf := off);
    }
    ok := true;
  }

  lemma PlacedMore(flow: seq<Node>, i: nat, code: seq<Insn>, offset: seq<nat>, done: set<nat>, tail: nat)
    requires PlacedAll(code, flow, offset, done, tail)
    requires i < |flow| && offset[i] >= tail && Placed(code, flow, offset, i)
    ensures PlacedAll(code, flow, offset, done + {i}, tail)
  {
  }

  /** What failing adds to: one more instruction for block i. */
  ghost predicate OneLonger(flow: seq<Node>, sizes: seq<nat>, sizes': seq<nat>) {
    && |sizes| == |sizes'| && RetsShort(flow, sizes')
    && Total(sizes', Everything(|sizes|)) == Total(sizes, Everything(|sizes|)) + 1
  }

  lemma GrownBlock(flow: seq<Node>, sizes: seq<nat>, sizes': seq<nat>, i: nat)
    requires RetsShort(flow, sizes) && i < |flow| && flow[i].last.Jmp?
    requires |sizes| == |sizes'| && i < |sizes| && sizes'[i] == sizes[i] + 1
    requires forall j :: 0 <= j < |sizes| && j != i ==> sizes'[j] == sizes[j]
    ensures OneLonger(flow, sizes, sizes')
  {
    assert sizes' == sizes[i := sizes[i] + 1];
    TotalGrows(sizes, i, Everything(|sizes|));
  }

  ghost function PlaceOf(b: Block?): nat
    reads if b == null then {} else {b}
  {
    if b == null then 0 else b.offset
  }

  /** One block written at its offset. */
  method FillBlock(p: Block, fp: array<Insn>) returns (ok: bool)
    requires fp.Length <= INT_MAX && p.offset + |p.stmts| + p.longjt + p.longjf < fp.Length
    requires if p.s.Jmp? then p.jt != null && p.jf != null else p.jt == null
    requires p.jt != null ==> p.offset + |p.stmts| + p.longjt + p.longjf < p.jt.offset < fp.Length
    requires p.jf != null ==> p.offset + |p.stmts| + p.longjt + p.longjf < p.jf.offset < fp.Length
    requires Blank(fp[..], p.offset, p.offset + |p.stmts| + 1 + p.longjt + p.longjf)
    modifies fp, p`longjt, p`longjf
    ensures ok ==> LongJumps(fp[..], p.offset + |p.stmts| + 1, p.offset + |p.stmts| + 1 + p.longjt + p.longjf)
    ensures p.jt == null ==> ok
    ensures SameBut(old(fp[..]), fp[..], p.offset, p.offset + |p.stmts| + 1 + old(p.longjt + p.longjf))
    ensures ok ==> p.longjt == old(p.longjt) && p.longjf == old(p.longjf)
    ensures ok ==> BlockAt(fp[..], p.offset, p.stmts, p.s, PlaceOf(p.jt), PlaceOf(p.jf))
    ensures !ok ==> p.longjt + p.longjf == old(p.longjt + p.longjf) + 1
  {
    hide Leads;
    ghost var code := fp[..];
    PutStmts(fp, p.offset, p.stmts);
    fp[p.offset + |p.stmts|] := LastInsn(p.s);
    ok := true;
    if p.jt != null {
      ok := PutBranches(p, p.jt, p.jf, fp);
    }
  }

  // ---- Placing everything -----------------------------------------------------------------

  /** Everything a pass changes. */
  datatype Snap = Snap(sizes: seq<nat>, marked: set<nat>, code: seq<Insn>, offset: seq<nat>, tail: nat)

  ghost function Now(c: ConvState, ic: Icode, bs: seq<Block>): (s: Snap)
    reads c, c.fstart, ic, bs`stmts, bs`longjt, bs`longjf, bs`mark, bs`offset
  {
    Snap(Sizes(bs), Marked(bs, ic.curMark), c.fstart[..], Offsets(bs), c.ftail)
  }

  // What else a pass keeps: what the static check of the finished program needs.

  ghost predicate HasStmt(ss: seq<Stmt>, insn: Insn) {
    exists m :: 0 <= m < |ss| && insn == Encode(ss[m])
  }

  /** The instruction is the encoding of a statement of some block, or passes the static check where it stands. */
  ghost predicate FilledAt(code: seq<Insn>, flow: seq<Node>, k: nat)
    requires k < |code|
  {
    Validator.InsnOk(k, code[k], |code|) || exists j :: 0 <= j < |flow| && HasStmt(flow[j].stmts, code[k])
  }

  ghost predicate Filled(code: seq<Insn>, flow: seq<Node>, from: nat) {
    forall k :: from <= k < |code| ==> FilledAt(code, flow, k)
  }

  ghost predicate EndsInReturn(code: seq<Insn>) {
    |code| > 0 && ClassOf(code[|code| - 1].code) == RET
  }

  /** A return never has room set aside for a long jump. */
  ghost predicate RetsShort(flow: seq<Node>, sizes: seq<nat>) {
    |sizes| == |flow| && forall i :: 0 <= i < |flow| && flow[i].last.Ret? ==> sizes[i] == |flow[i].stmts| + 1
  }

  /** Nothing is written before the tail, and what is written from there on is filled and ends in a return. */
  ghost predicate Sane(flow: seq<Node>, s: Snap) {
    && Blank(s.code, 0, s.tail) && Filled(s.code, flow, s.tail) && RetsShort(flow, s.sizes)
    && (s.tail < |s.code| ==> EndsInReturn(s.code))
  }

  lemma BlankPasses(k: nat, len: nat)
    ensures Validator.InsnOk(k, BLANK, len)
  {
    assert ClassOf(0) == 0 && ModeOf(0) == 0;
  }

  lemma LongJumpPasses(code: seq<Insn>, k: nat)
    requires k < |code| <= INT_MAX && code[k] == Insn(JMP, 0, 0, code[k].k) && k + 1 + code[k].k < |code|
    ensures Validator.InsnOk(k, code[k], |code|)
  {
    assert ClassOf(JMP) == JMP && OpOf(JMP) == 0;
    Interpreter.WrapSmall(k + 1 + code[k].k);
  }

  lemma LastPasses(code: seq<Insn>, b: nat, last: Last, jt: nat, jf: nat)
    requires b < |code| <= INT_MAX && code[b] == LastInsn(last).(jt := code[b].jt, jf := code[b].jf)
    requires last.Jmp? ==> Leads(code, b, code[b].jt, jt) && Leads(code, b, code[b].jf, jf)
    requires last.Jmp? ==> jt < |code| && jf < |code|
    ensures Validator.InsnOk(b, code[b], |code|)
    ensures last.Ret? ==> ClassOf(code[b].code) == RET
  {
    match last {
      case Ret(_) => assert ClassOf(RET) == RET;
      case Jmp(br) =>
        Interpreter.WrapSmall(b + 1 + code[b].jt);
        Interpreter.WrapSmall(b + 1 + code[b].jf);
        LastCode(br);
    }
  }

  lemma LastCode(br: Branch)
    ensures var code := LastInsn(Jmp(br)).code; ClassOf(code) == JMP && OpOf(code) in {0x10, 0x20, 0x30, 0x40}
  {
    match br {
      case ByK(cond, _) => { match cond { case Eq => case Gt => case Ge => case Set => } }
      case ByX(cond) => { match cond { case Eq => case Gt => case Ge => case Set => } }
    }
  }

  /** A block's room is filled once it is written. */
  lemma BlockFills(code: seq<Insn>, flow: seq<Node>, i: nat, at: nat, jt: nat, jf: nat, end: nat)
    requires i < |flow| && BlockAt(code, at, flow[i].stmts, flow[i].last, jt, jf) && end <= |code| <= INT_MAX
    requires flow[i].last.Jmp? ==> jt < |code| && jf < |code|
    requires LongJumps(code, at + |flow[i].stmts| + 1, end)
    ensures forall k :: at <= k < end ==> FilledAt(code, flow, k)
  {
    hide Validator.InsnOk, Leads, LastInsn, Encode;
    var b := at + |flow[i].stmts|;
    LastPasses(code, b, flow[i].last, jt, jf);
    forall k | at <= k < end ensures FilledAt(code, flow, k) {
      if k < b {
        assert code[k] == Encode(flow[i].stmts[k - at]);
        assert HasStmt(flow[i].stmts, code[k]);
      } else if k > b {
        if code[k] == BLANK { BlankPasses(k, |code|); } else { LongJumpPasses(code, k); }
      }
    }
  }

  /** A pass is about to place what block i reaches: everything done has its place, and there is room for the rest. */
  ghost predicate Ready(flow: seq<Node>, s: Snap, done: set<nat>, i: int) {
    && Forward(flow) && i < |flow| == |s.sizes| && Visiting(flow, s.marked, done, i)
    && PlacedAll(s.code, flow, s.offset, done, s.tail) && Total(s.sizes, Reach(flow, i) - s.marked) <= s.tail
    && s.tail <= |s.code| <= INT_MAX && Sane(flow, s)
  }

  /** It has placed them, and nothing else. */
  ghost predicate Converted(flow: seq<Node>, s: Snap, s': Snap, done: set<nat>, i: int) {
    && s'.sizes == s.sizes && |s'.code| == |s.code| && s'.tail <= s.tail
    && Swept(flow, s.sizes, s.marked, s'.marked, done, i, s.tail - s'.tail)
    && PlacedAll(s'.code, flow, s'.offset, done + Reach(flow, i), s'.tail)
    && (i >= 0 && i !in s.marked ==> i < |s'.offset| && s'.offset[i] == s'.tail) && Sane(flow, s')
  }

  lemma ConvertedAlready(flow: seq<Node>, s: Snap, done: set<nat>, i: int)
    requires Ready(flow, s, done, i) && (i >= 0 ==> i in s.marked)
    ensures Converted(flow, s, s, done, i)
  {
    hide PlacedAll, Sane;
    SweptAlready(flow, s.sizes, s.marked, done, i);
    ReachStays(flow, done, i);
    assert done + Reach(flow, i) == done;
  }

  /** The pass marks block i and turns to its false branch. */
  lemma ReadyForFirst(flow: seq<Node>, s: Snap, done: set<nat>, i: nat)
    requires Ready(flow, s, done, i) && i !in s.marked
    ensures Ready(flow, s.(marked := s.marked + {i}), done, flow[i].jf)
  {
    hide Visiting, PlacedAll, Reach, Total, Forward, Blank, Filled, RetsShort, EndsInReturn;
    VisitFirst(flow, s.marked, done, i, flow[i].jf, flow[i].jt);
    Visit(flow, s.sizes, s.marked, i, flow[i].jf, flow[i].jt);
  }

  lemma ReadyForSecond(flow: seq<Node>, s: Snap, s2: Snap, done: set<nat>, i: nat)
    requires Ready(flow, s, done, i) && i !in s.marked
    requires Converted(flow, s.(marked := s.marked + {i}), s2, done, flow[i].jf)
    ensures flow[i].jf < |flow| && s2.sizes == s.sizes && Ready(flow, s2, done + Reach(flow, flow[i].jf), flow[i].jt)
  {
    hide Visiting, PlacedAll, Reach, Total, Forward, Closed, Sane;
    Visit(flow, s.sizes, s.marked, i, flow[i].jf, flow[i].jt);
    VisitSecond(flow, s.sizes, s.marked, s2.marked, done, i, flow[i].jf, flow[i].jt, s.tail - s2.tail);
  }

  ghost function WithBranches(flow: seq<Node>, done: set<nat>, i: nat): set<nat>
    requires Forward(flow) && i < |flow|
  {
    assert ForwardAt(flow, i);
    done + Reach(flow, flow[i].jf) + Reach(flow, flow[i].jt)
  }

  /** Block i is not done, but what it branches to is, and so on; and there is room for block i. */
  ghost predicate ToPlace(flow: seq<Node>, s: Snap, done: set<nat>, i: nat) {
    && i < |flow| == |s.sizes| && i !in done && Closed(flow, done) && ClosedAt(flow, done, i)
    && PlacedAll(s.code, flow, s.offset, done, s.tail) && s.sizes[i] <= s.tail <= |s.code| <= INT_MAX
    && Sane(flow, s)
  }

  ghost predicate BlockPlaced(flow: seq<Node>, s: Snap, s': Snap, done: set<nat>, i: nat) {
    && i < |s.sizes| && s'.sizes == s.sizes && s'.marked == s.marked && |s'.code| == |s.code|
    && s.sizes[i] <= s.tail && s'.tail == s.tail - s.sizes[i]
    && PlacedAll(s'.code, flow, s'.offset, done + {i}, s'.tail) && i < |s'.offset| && s'.offset[i] == s'.tail
    && Sane(flow, s')
  }

  lemma ReadyForBlock(flow: seq<Node>, s: Snap, s2: Snap, s3: Snap, done: set<nat>, i: nat)
    requires Ready(flow, s, done, i) && i !in s.marked && flow[i].jf < |flow|
    requires Converted(flow, s.(marked := s.marked + {i}), s2, done, flow[i].jf)
    requires Converted(flow, s2, s3, done + Reach(flow, flow[i].jf), flow[i].jt)
    ensures s3.sizes == s.sizes && ToPlace(flow, s3, WithBranches(flow, done, i), i)
  {
    hide PlacedAll, Total, Sane;
    assert ForwardAt(flow, i);
    SweptBlock(flow, s.sizes, s.marked, s2.marked, s3.marked, done, i, flow[i].jf, flow[i].jt,
               s.tail - s2.tail, s2.tail - s3.tail);
  }

  lemma PassDone(flow: seq<Node>, s: Snap, s2: Snap, s3: Snap, s4: Snap, done: set<nat>, i: nat)
    requires Ready(flow, s, done, i) && i !in s.marked && flow[i].jf < |flow|
    requires Converted(flow, s.(marked := s.marked + {i}), s2, done, flow[i].jf)
    requires Converted(flow, s2, s3, done + Reach(flow, flow[i].jf), flow[i].jt)
    requires BlockPlaced(flow, s3, s4, WithBranches(flow, done, i), i)
    ensures Converted(flow, s, s4, done, i)
  {
    hide PlacedAll, Total, Visiting, Sane;
    assert ForwardAt(flow, i);
    SweptBlock(flow, s.sizes, s.marked, s2.marked, s3.marked, done, i, flow[i].jf, flow[i].jt,
               s.tail - s2.tail, s2.tail - s3.tail);
    VisitDone(flow, done, i, flow[i].jf, flow[i].jt);
    assert WithBranches(flow, done, i) + {i} == done + Reach(flow, i);
  }

  /** One block, after its branches: taken off the tail, then written. */
  method PlaceBlock(c: ConvState, ghost ic: Icode, p: Block, ghost bs: seq<Block>, ghost flow: seq<Node>, ghost i: nat,
                    ghost done: set<nat>) returns (ok: bool)
    requires Layered(bs, flow) && i < |bs| && bs[i] == p && ToPlace(flow, Now(c, ic, bs), done, i)
    modifies c`ftail, c.fstart, p`offset, p`longjt, p`longjf
    ensures ok ==> BlockPlaced(flow, old(Now(c, ic, bs)), Now(c, ic, bs), done, i)
    ensures !ok ==> OneLonger(flow, old(Now(c, ic, bs)).sizes, Now(c, ic, bs).sizes)
  {
    hide Sane, LongJumps, Blank, RetsShort, Layered, ToPlace, PlacedAll, BlockAt, Kept, OneLonger, SameBut, Distinct,
         Forward, LastInsn, Sizes, Offsets, Flow, Marked;
    ghost var s := Now(c, ic, bs);
    BeforePlacing(bs, flow, i, s, done);
    AllDiffer(bs);
    c.ftail := c.ftail - (|p.stmts| + 1 + p.longjt + p.longjf);
    p.offset := c.ftail;
    ok := FillBlock(p, c.fstart);
    if ok {
      assert Sizes(bs) == s.sizes;
      AfterPlacing(bs, flow, i, s, c.fstart[..], done, c.ftail);
      StillSane(bs, flow, i, s, Now(c, ic, bs), done);
    } else {
      assert Sizes(bs)[i] == s.sizes[i] + 1;
      GrownBlock(flow, s.sizes, Sizes(bs), i);
    }
  }

  lemma BeforePlacing(bs: seq<Block>, flow: seq<Node>, i: nat, s: Snap, done: set<nat>)
    requires Layered(bs, flow) && i < |bs| && s.offset == Offsets(bs) && ToPlace(flow, s, done, i)
    ensures Distinct(bs) && bs[i] != bs[i].jt && bs[i] != bs[i].jf
    ensures |s.sizes| == |bs| == |flow| && s.sizes[i] <= s.tail <= |s.code| <= INT_MAX
    ensures Blank(s.code, s.tail - s.sizes[i], s.tail) && RetsShort(flow, s.sizes) && flow[i].last == bs[i].s
    ensures if bs[i].s.Jmp? then bs[i].jt != null && bs[i].jf != null else bs[i].jt == null && bs[i].jf == null
    ensures bs[i].jt != null ==> s.tail <= bs[i].jt.offset < |s.code|
    ensures bs[i].jf != null ==> s.tail <= bs[i].jf.offset < |s.code|
  {
    hide Offsets, IndexOf, Flow, Closed;
    Children(bs, flow, i);
    AllDiffer(bs);
  }

  lemma AfterPlacing(bs: seq<Block>, flow: seq<Node>, i: nat, s: Snap, code': seq<Insn>, done: set<nat>, tail': nat)
    requires Layered(bs, flow) && i < |bs| == |s.offset| && ToPlace(flow, s, done, i)
    requires tail' <= s.tail && bs[i].offset == tail' && SameBut(s.code, code', tail', s.tail)
    requires forall j :: 0 <= j < |bs| && j != i ==> bs[j].offset == s.offset[j]
    requires BlockAt(code', bs[i].offset, bs[i].stmts, bs[i].s, PlaceOf(bs[i].jt), PlaceOf(bs[i].jf))
    ensures PlacedAll(code', flow, Offsets(bs), done + {i}, tail') && |code'| == |s.code|
  {
    hide BlockAt, PlacedAll, Forward, Offsets, IndexOf, Flow, Closed, Layered;
    Children(bs, flow, i);
    PlacedKept(s.code, code', flow, s.offset, Offsets(bs), done, s.tail, tail');
    PlacedMore(flow, i, code', Offsets(bs), done, tail');
  }

  lemma NowMarked(c: ConvState, ic: Icode, bs: seq<Block>)
    ensures Now(c, ic, bs).marked == Marked(bs, ic.curMark)
  {
  }

  lemma StillSane(bs: seq<Block>, flow: seq<Node>, i: nat, s: Snap, s': Snap, done: set<nat>)
    requires Layered(bs, flow) && i < |bs| == |s.offset| && ToPlace(flow, s, done, i)
    requires s'.sizes == s.sizes && s'.tail == s.tail - s.sizes[i] == bs[i].offset
    requires SameBut(s.code, s'.code, s'.tail, s.tail)
    requires forall j :: 0 <= j < |bs| && j != i ==> bs[j].offset == s.offset[j]
    requires BlockAt(s'.code, bs[i].offset, bs[i].stmts, bs[i].s, PlaceOf(bs[i].jt), PlaceOf(bs[i].jf))
    requires s.sizes[i] > |bs[i].stmts| && LongJumps(s'.code, s'.tail + |bs[i].stmts| + 1, s.tail)
    ensures Sane(flow, s')
  {
    hide Offsets, IndexOf, Flow, Closed, Layered, LongJumps, Leads, FilledAt;
    Children(bs, flow, i);
    assert flow[i].last.Jmp? ==> PlaceOf(bs[i].jt) < |s.code| && PlaceOf(bs[i].jf) < |s.code|;
    BlockFills(s'.code, flow, i, s'.tail, PlaceOf(bs[i].jt), PlaceOf(bs[i].jf), s.tail);
    forall k | s.tail <= k < |s.code| ensures FilledAt(s'.code, flow, k) {
      assert FilledAt(s.code, flow, k);
      FilledKept(s.code, s'.code, flow, k);
    }
    if s.tail == |s.code| {
      assert done == {};
      LastPasses(s'.code, s'.tail + |flow[i].stmts|, flow[i].last, 0, 0);
    }
  }

  lemma FilledKept(code: seq<Insn>, code': seq<Insn>, flow: seq<Node>, k: nat)
    requires k < |code| == |code'| && code[k] == code'[k] && FilledAt(code, flow, k)
    ensures FilledAt(code', flow, k)
  {
  }

  /** A visit to block i begins. */
  method MarkFirst(c: ConvState, ic: Icode, p: Block, ghost bs: seq<Block>, ghost i: nat)
    requires i < |bs| && bs[i] == p && Distinct(bs) && MarksUpTo(bs, ic.curMark)
    modifies p`mark
    ensures MarksUpTo(bs, ic.curMark)
    ensures Now(c, ic, bs) == old(Now(c, ic, bs)).(marked := old(Now(c, ic, bs)).marked + {i})
  {
    hide Sizes, Marked, Offsets, Distinct, MarksUpTo;
    Mark(ic, p, bs, i);
  }

  /** Places everything that p reaches and that has no place yet, from the tail backwards: the false branch first,
      then the true branch, then p. It fails when a branch turns out to need a long jump, and has then set room aside
      for it. */
  method ConvertCode(c: ConvState, ic: Icode, p: Block?, ghost bs: seq<Block>, ghost flow: seq<Node>, ghost i: int,
                     ghost done: set<nat>) returns (ok: bool)
    requires Layered(bs, flow) && i == IndexOf(bs, p) && (p == null || i >= 0)
    requires MarksUpTo(bs, ic.curMark) && Ready(flow, Now(c, ic, bs), done, i)
    modifies c`ftail, c.fstart, bs`mark, bs`offset, bs`longjt, bs`longjf
    ensures MarksUpTo(bs, ic.curMark)
    ensures ok ==> Converted(flow, old(Now(c, ic, bs)), Now(c, ic, bs), done, i)
    ensures !ok ==> OneLonger(flow, old(Now(c, ic, bs)).sizes, Now(c, ic, bs).sizes)
    decreases if i < 0 then 0 else |bs| - i
  {
    hide Layered, Ready, Converted, ToPlace, BlockPlaced, Reach, IndexOf, Forward, Distinct, MarksUpTo, OneLonger,
         Now, WithBranches, Marked;
    ghost var s := Now(c, ic, bs);
    InMarked(bs, ic.curMark, p, i);
    assert s.marked == Marked(bs, ic.curMark) by { NowMarked(c, ic, bs); }
    if p == null || p.mark == ic.curMark {
      ConvertedAlready(flow, s, done, i);
      return true;
    }
    Children(bs, flow, i);
    ReadyForFirst(flow, s, done, i);
    MarkFirst(c, ic, p, bs, i);
    ok := ConvertCode(c, ic, p.jf, bs, flow, flow[i].jf, done);
    if !ok { return; }
    ghost var s2 := Now(c, ic, bs);
    ReadyForSecond(flow, s, s2, done, i);
    ok := ConvertCode(c, ic, p.jt, bs, flow, flow[i].jt, done + Reach(flow, flow[i].jf));
    if !ok { return; }
    ghost var s3 := Now(c, ic, bs);
    ReadyForBlock(flow, s, s2, s3, done, i);
    ok := PlaceBlock(c, ic, p, bs, flow, i, WithBranches(flow, done, i));
    if ok {
      PassDone(flow, s, s2, s3, Now(c, ic, bs), done, i);
    }
  }

  // ---- The retry loop ----------------------------------------------------------------------

  /** A program that holds every block reached from the first one, which stands at its start. */
  ghost predicate Complete(code: seq<Insn>, flow: seq<Node>, offset: seq<nat>) {
    && Forward(flow) && 0 < |flow| == |offset| && offset[0] == 0 && |code| <= INT_MAX
    && Closed(flow, Reach(flow, 0)) && PlacedAll(code, flow, offset, Reach(flow, 0), 0)
    && Filled(code, flow, 0) && EndsInReturn(code)
  }

  lemma {:induction false} RootFirst(bs: seq<Block>)
    requires |bs| > 0 && Distinct(bs)
    ensures IndexOf(bs, bs[0]) == 0
  {
    AllDiffer(bs);
  }

  /** After cur_mark has gone up, nothing is marked. */
  lemma NothingMarked(bs: seq<Block>, cur: nat)
    requires MarksUpTo(bs, cur)
    ensures MarksUpTo(bs, cur + 1) && Marked(bs, cur + 1) == {}
  {
    forall i: nat | i < |bs| ensures bs[i].mark != cur + 1 {
      assert bs[i] in bs;
    }
  }

  lemma ReadyAtFirst(flow: seq<Node>, s: Snap)
    requires Forward(flow) && 0 < |flow| == |s.sizes| == |s.offset| && s.marked == {}
    requires s.tail == |s.code| == Total(s.sizes, Reach(flow, 0)) <= INT_MAX
    requires Blank(s.code, 0, |s.code|) && RetsShort(flow, s.sizes)
    ensures Ready(flow, s, {}, 0)
  {
    assert Reach(flow, 0) - {} == Reach(flow, 0);
  }

  lemma CompleteAtLast(flow: seq<Node>, s: Snap, s': Snap)
    requires Ready(flow, s, {}, 0) && s.marked == {} && Converted(flow, s, s', {}, 0)
    requires s.tail == Total(s.sizes, Reach(flow, 0))
    ensures Complete(s'.code, flow, s'.offset)
  {
    assert {} + Reach(flow, 0) == Reach(flow, 0) && Reach(flow, 0) - {} == Reach(flow, 0);
  }

  lemma SizesBounded(bs: seq<Block>, flow: seq<Node>, s: set<nat>)
    requires Layered(bs, flow)
    ensures Total(Sizes(bs), s) <= Total(MostSizes(flow), s)
  {
    TotalBounded(Sizes(bs), MostSizes(flow), s);
  }

  /** How many more long jumps there could be. */
  ghost function Slack(flow: seq<Node>, sizes: seq<nat>): int {
    Total(MostSizes(flow), Everything(|flow|)) - Total(sizes, Everything(|flow|))
  }

  lemma SlackFalls(bs: seq<Block>, flow: seq<Node>, sizes: seq<nat>)
    requires Layered(bs, flow) && |sizes| == |bs| && OneLonger(flow, sizes, Sizes(bs))
    ensures 0 <= Slack(flow, Sizes(bs)) < Slack(flow, sizes) && RetsShort(flow, Sizes(bs))
  {
    SizesBounded(bs, flow, Everything(|flow|));
  }

  lemma CountIsTotal(flow: seq<Node>, t: Tally, t': Tally, n: nat)
    requires |flow| > 0 && t.marked == {} && Counted(flow, t, t', {}, 0, n)
    ensures n == Total(t'.sizes, Reach(flow, 0))
  {
    assert Reach(flow, 0) - {} == Reach(flow, 0);
  }

  lemma CountsFromNothing(flow: seq<Node>, t: Tally)
    requires Forward(flow) && 0 < |flow| == |t.sizes| && t.marked == {}
    ensures ToCount(flow, t, {}, 0)
  {
  }

  lemma AtRoot(bs: seq<Block>, flow: seq<Node>)
    requires Layered(bs, flow) && |bs| > 0
    ensures IndexOf(bs, bs[0]) == 0 && Forward(flow) && |flow| == |bs|
  {
    RootFirst(bs);
  }

  /** unMarkAll and count_stmts. */
  method CountAll(ic: Icode, ghost bs: seq<Block>, ghost flow: seq<Node>) returns (n: nat)
    requires Layered(bs, flow) && |bs| > 0 && bs[0] == ic.root && MarksUpTo(bs, ic.curMark)
    modifies ic`curMark, bs`mark
    ensures MarksUpTo(bs, ic.curMark)
    ensures Forward(flow) && 0 < |flow| && n == Total(Sizes(bs), Reach(flow, 0))
  {
    hide Layered, IndexOf, Forward, MarksUpTo, ToCount, Counted, Total, Reach, Marked, Sizes;
    AtRoot(bs, flow);
    NothingMarked(bs, ic.curMark);
    ic.curMark := ic.curMark + 1;
    ghost var t := TallyOf(ic, bs);
    CountsFromNothing(flow, t);
    n := CountStmts(ic, ic.root, bs, flow, 0, {});
    CountIsTotal(flow, t, TallyOf(ic, bs), n);
  }

  /** unMarkAll and convert_code_r, into a program of the size counted. */
  method ConvertAll(ic: Icode, fp: array<Insn>, ghost bs: seq<Block>, ghost flow: seq<Node>, ghost sizes: seq<nat>)
    returns (ok: bool)
    requires Layered(bs, flow) && |bs| > 0 && bs[0] == ic.root && MarksUpTo(bs, ic.curMark)
    requires Forward(flow) && 0 < |flow| && fp.Length == Total(sizes, Reach(flow, 0)) <= INT_MAX && sizes == Sizes(bs)
    requires Blank(fp[..], 0, fp.Length) && RetsShort(flow, sizes)
    modifies fp, ic`curMark, bs`mark, bs`offset, bs`longjt, bs`longjf
    ensures MarksUpTo(bs, ic.curMark)
    ensures ok ==> Complete(fp[..], flow, Offsets(bs))
    ensures !ok ==> OneLonger(flow, sizes, Sizes(bs))
  {
    hide Layered, IndexOf, Forward, MarksUpTo, Total, Reach, Marked, Sizes, Offsets, Ready, Converted, Complete,
         OneLonger, RetsShort, Blank;
    AtRoot(bs, flow);
    var c := new ConvState(fp);
    NothingMarked(bs, ic.curMark);
    ic.curMark := ic.curMark + 1;
    ghost var s := Now(c, ic, bs);
    ReadyAtFirst(flow, s);
    ok := ConvertCode(c, ic, ic.root, bs, flow, 0, {});
    if ok {
      CompleteAtLast(flow, s, Now(c, ic, bs));
    }
  }

  /** One pass of the loop: sized, and placed if there is memory. If it fails, there is less left to fail for. */
  method Attempt(ic: Icode, memory: nat, ghost bs: seq<Block>, ghost flow: seq<Node>, ghost sizes: seq<nat>)
    returns (fp: array?<Insn>, ok: bool)
    requires Layered(bs, flow) && |bs| > 0 && bs[0] == ic.root && MarksUpTo(bs, ic.curMark) && memory <= INT_MAX
    requires sizes == Sizes(bs) && RetsShort(flow, sizes)
    modifies ic`curMark, bs`mark, bs`offset, bs`longjt, bs`longjf
    ensures MarksUpTo(bs, ic.curMark)
    ensures fp == null ==> Forward(flow) && 0 < |flow| && memory < Total(MostSizes(flow), Reach(flow, 0))
    ensures fp != null ==> fresh(fp) && fp.Length <= memory
    ensures fp != null && ok ==> Complete(fp[..], flow, Offsets(bs))
    ensures fp != null && !ok ==> OneLonger(flow, sizes, Sizes(bs))
  {
    hide Layered, IndexOf, Forward, MarksUpTo, Total, Reach, Sizes, MostSizes, Offsets, Complete, OneLonger, Flow,
         RetsShort;
    AtRoot(bs, flow);
    var n := CountAll(ic, bs, flow);
    if n > memory {
      SizesBounded(bs, flow, Reach(flow, 0));
      return null, false;
    }
    fp := new Insn[n](_ => BLANK);
    ok := ConvertAll(ic, fp, bs, flow, sizes);
  }

  /** icode_to_fcode: it tries again with one more long jump until every branch reaches. It fails only for want of
      memory, given as the number of instructions that can be had. */
  method IcodeToFcode(ic: Icode, memory: nat, ghost bs: seq<Block>, ghost flow: seq<Node>) returns (fp: array?<Insn>)
    requires Layered(bs, flow) && |bs| > 0 && bs[0] == ic.root && MarksUpTo(bs, ic.curMark) && memory <= INT_MAX
    requires RetsShort(flow, Sizes(bs))
    modifies ic`curMark, bs`mark, bs`offset, bs`longjt, bs`longjf
    ensures fp == null ==> Forward(flow) && 0 < |flow| && memory < Total(MostSizes(flow), Reach(flow, 0))
    ensures fp != null ==> fresh(fp) && fp.Length <= memory && Complete(fp[..], flow, Offsets(bs))
  {
    hide Layered, Forward, MarksUpTo, Total, Reach, Sizes, MostSizes, Offsets, Complete, Slack, OneLonger, RetsShort;
    while true
      invariant MarksUpTo(bs, ic.curMark) && ic.root == bs[0] && RetsShort(flow, Sizes(bs))
      decreases Slack(flow, Sizes(bs))
    {
      ghost var sizes := Sizes(bs);
      var ok;
      fp, ok := Attempt(ic, memory, bs, flow, sizes);
      if fp == null || ok {
        return;
      }
      SlackFalls(bs, flow, sizes);
    }
  }

  // ---- Running the program -------------------------------------------------------------------

  function StatusOf(r: Result): Interpreter.Status {
    match r
    case Returned(k) => Interpreter.Returned(k)
    case Rejected(why) => Interpreter.Stopped(why)
    case Lost => Interpreter.OffProgram
  }

  lemma {:induction false} StepsAdd(prog: seq<Insn>, s: Interpreter.Status, p: Packet, m: nat, n: nat)
    ensures Interpreter.Steps(prog, s, p, m + n) == Interpreter.Steps(prog, Interpreter.Steps(prog, s, p, m), p, n)
    decreases m
  {
    if m > 0 { StepsAdd(prog, Interpreter.Step(prog, s, p), p, m - 1, n); }
  }

  /** A block's statements, run by the machine. */
  lemma {:induction false} StmtsRun(code: seq<Insn>, at: nat, ss: seq<Stmt>, r: Regs, p: Packet)
    requires Coded(code, at, ss)
    ensures Interpreter.Steps(code, Interpreter.Running(at, r), p, |ss|) ==
            match ExecAll(ss, r, p)
            case Next(r') => Interpreter.Running(at + |ss|, r')
            case Halt(why) => Interpreter.Stopped(why)
    decreases |ss|
  {
    hide Encode, Decode, Exec;
    if ss != [] {
      assert code[at] == Encode(ss[0]);
      DecodeEncode(ss[0]);
      match Exec(ss[0], r, p) {
        case Next(r') =>
          assert Coded(code, at + 1, ss[1..]);
          StmtsRun(code, at + 1, ss[1..], r', p);
        case Halt(why) =>
          Interpreter.Finished(code, Interpreter.Stopped(why), p, |ss| - 1);
      }
    }
  }

  lemma DecodeLast(last: Last, jt: byte, jf: byte)
    ensures Decode(LastInsn(last).(jt := jt, jf := jf)) ==
            match last
            case Ret(k) => RetK(k)
            case Jmp(ByK(cond, k)) => Jump(cond, false, k, jt, jf)
            case Jmp(ByX(cond)) => Jump(cond, true, 0, jt, jf)
  {
    match last {
      case Ret(_) =>
      case Jmp(ByK(cond, _)) => { match cond { case Eq => case Gt => case Ge => case Set => } }
      case Jmp(ByX(cond)) => { match cond { case Eq => case Gt => case Ge => case Set => } }
    }
  }

  /** From a jump to the block it branches to, in one step or two. */
  lemma BranchRuns(code: seq<Insn>, b: nat, br: Branch, jt: nat, jf: nat, r: Regs, p: Packet) returns (n: nat)
    requires b < |code| && code[b] == LastInsn(Jmp(br)).(jt := code[b].jt, jf := code[b].jf)
    requires Leads(code, b, code[b].jt, jt) && Leads(code, b, code[b].jf, jf)
    ensures var target := if Taken(br, r) then jt else jf;
      1 <= n <= target - b && Interpreter.Steps(code, Interpreter.Running(b, r), p, n) == Interpreter.Running(target, r)
  {
    DecodeLast(Jmp(br), code[b].jt, code[b].jf);
    var target := if Taken(br, r) then jt else jf;
    var q := b + 1 + if Taken(br, r) then code[b].jt else code[b].jf;
    var s := Interpreter.Running(b, r);
    assert Interpreter.Step(code, s, p) == Interpreter.Running(q, r);
    n := 1;
    OneStep(code, s, p);
    if q != target {
      assert Decode(code[q]) == Ja(code[q].k);
      assert Interpreter.Step(code, Interpreter.Running(q, r), p) == Interpreter.Running(target, r);
      n := 2;
      OneStep(code, Interpreter.Running(q, r), p);
      StepsAdd(code, s, p, 1, 1);
    }
  }

  lemma OneStep(code: seq<Insn>, s: Interpreter.Status, p: Packet)
    ensures Interpreter.Steps(code, s, p, 1) == Interpreter.Step(code, s, p)
  {
    assert Interpreter.Steps(code, Interpreter.Step(code, s, p), p, 0) == Interpreter.Step(code, s, p);
  }

  /** The program does what the graph does: from a placed block, the machine ends as the graph does from that block,
      within as many steps as there are instructions from the block to the end. */
  lemma {:induction false} ProgramRunsGraph(code: seq<Insn>, bs: seq<Block>, flow: seq<Node>, offset: seq<nat>,
                                            done: set<nat>,
                                            all: seq<Block>, i: nat, r: Regs, p: Packet, steps: nat, fuel: nat)
    requires Layered(bs, flow) && Closed(flow, done) && PlacedAll(code, flow, offset, done, 0) && i in done
    requires (forall b <- bs :: b in all) && i < |bs| && fuel >= |bs| - i && steps >= |code| - offset[i]
    ensures Interpreter.Steps(code, Interpreter.Running(offset[i], r), p, steps)
      == StatusOf(Run(bs[i], all, r, p, fuel))
    decreases |bs| - i
  {
    hide Layered, Leads, Coded, LastInsn, ExecAll, ForwardAt, Flow, IndexOf;
    Children(bs, flow, i);
    var node, at := flow[i], offset[i];
    var b, n := at + |node.stmts|, |node.stmts|;
    assert Placed(code, flow, offset, i) && ClosedAt(flow, done, i);
    var s0 := Interpreter.Running(at, r);
    StmtsRun(code, at, node.stmts, r, p);
    StepsAdd(code, s0, p, n, steps - n);
    match ExecAll(node.stmts, r, p) {
      case Halt(why) => Interpreter.Finished(code, Interpreter.Stopped(why), p, steps - n);
      case Next(r1) =>
        match node.last {
          case Ret(k) =>
            DecodeLast(node.last, code[b].jt, code[b].jf);
            Interpreter.Finished(code, Interpreter.Returned(k), p, steps - n - 1);
          case Jmp(br) =>
            var hops := BranchRuns(code, b, br, offset[node.jt], offset[node.jf], r1, p);
            var j := if Taken(br, r1) then node.jt else node.jf;
            StepsAdd(code, Interpreter.Running(b, r1), p, hops, steps - n - hops);
            ProgramRunsGraph(code, bs, flow, offset, done, all, j, r1, p, steps - n - hops, fuel - 1);
        }
    }
  }

  // ---- Finished graphs ----------------------------------------------------------------------

  /** A graph that can be converted: its blocks in an order that every branch follows, the root first. */
  ghost predicate Convertible(root: Block, bs: seq<Block>)
    reads bs`stmts, bs`s, bs`jt, bs`jf, bs`mark, bs`longjt, bs`longjf
  {
    |bs| > 0 && bs[0] == root && Layered(bs, Flow(bs)) && Untouched(bs)
  }

  /** Every finished graph can be converted. */
  lemma CompiledConverts(ls: seq<Block>, e: Expr, accept: Block, reject: Block, snaplen: u32)
    requires Compiled(ls, e, accept, reject, snaplen)
    requires Distinct(ls + [accept, reject]) && Untouched(ls + [accept, reject])
    ensures |ls| > 0 && Convertible(ls[0], ls + [accept, reject])
  {
    hide Distinct, Flow, IndexOf, Wires, Compiled;
    var bs, n := ls + [accept, reject], |ls|;
    forall i | 0 <= i < |bs| ensures GoesForward(bs, i) {
      CompiledGoesForward(ls, e, accept, reject, snaplen, i);
    }
    AllForward(bs);
    CompiledSize(ls, e, accept, reject, snaplen);
  }

  lemma CompiledSize(ls: seq<Block>, e: Expr, accept: Block, reject: Block, snaplen: u32)
    requires Compiled(ls, e, accept, reject, snaplen)
    ensures |ls| > 0
  {
  }

  /** A block's branches are later blocks of the list; a return has none. */
  ghost predicate GoesForward(bs: seq<Block>, i: nat)
    requires i < |bs|
    reads bs`s, bs`jt, bs`jf
  {
    match bs[i].s
    case Ret(_) => bs[i].jt == null && bs[i].jf == null
    case Jmp(_) => Later(bs, i, bs[i].jt) && Later(bs, i, bs[i].jf)
  }

  ghost predicate Later(bs: seq<Block>, i: nat, b: Block?) {
    exists j :: i < j < |bs| && bs[j] == b
  }

  lemma CompiledGoesForward(ls: seq<Block>, e: Expr, accept: Block, reject: Block, snaplen: u32, i: nat)
    requires Compiled(ls, e, accept, reject, snaplen) && i < |ls| + 2
    ensures GoesForward(ls + [accept, reject], i)
  {
    var bs, n := ls + [accept, reject], |ls|;
    if i < n {
      EdgeGoesForward(ls, e, accept, reject, snaplen, i, true);
      EdgeGoesForward(ls, e, accept, reject, snaplen, i, false);
    }
  }

  lemma EdgeGoesForward(ls: seq<Block>, e: Expr, accept: Block, reject: Block, snaplen: u32, i: nat, branch: bool)
    requires Compiled(ls, e, accept, reject, snaplen) && i < |ls|
    ensures Later(ls + [accept, reject], i, if branch then ls[i].jt else ls[i].jf)
  {
    var bs, n := ls + [accept, reject], |ls|;
    SlotsGoForward(e, i, branch);
    assert Wires(ls)[i].Edge(branch) == if branch then ls[i].jt else ls[i].jf;
    match Slot(e, i, branch) {
      case To(j) => assert bs[j] == Wires(ls)[i].Edge(branch);
      case Out(v) => assert bs[if v then n else n + 1] == Wires(ls)[i].Edge(branch);
    }
  }

  lemma AllForward(bs: seq<Block>)
    requires Distinct(bs) && forall i :: 0 <= i < |bs| ==> GoesForward(bs, i)
    ensures Layered(bs, Flow(bs))
  {
    var flow := Flow(bs);
    forall i | 0 <= i < |bs| ensures ForwardAt(flow, i) && NoneMeansNullAt(bs, bs[i]) {
      assert GoesForward(bs, i);
      if bs[i].s.Jmp? {
        LaterIndex(bs, i, bs[i].jt);
        LaterIndex(bs, i, bs[i].jf);
      }
    }
  }

  lemma LaterIndex(bs: seq<Block>, i: nat, b: Block?)
    requires Distinct(bs) && Later(bs, i, b)
    ensures b in bs && IndexOf(bs, b) > i
  {
    AllDiffer(bs);
  }

  ghost predicate BlocksDefined(bs: seq<Block>)
    reads bs`stmts
  {
    forall b <- bs :: AllDefined(b.stmts)
  }

  lemma CompiledDefined(ls: seq<Block>, e: Expr, accept: Block, reject: Block, snaplen: u32)
    requires Compiled(ls, e, accept, reject, snaplen) && TestsDefined(e)
    ensures BlocksDefined(ls + [accept, reject])
  {
    hide AllDefined, TestsDefined, Finished, Wires;
    NothingIsDefined();
    forall i | 0 <= i < |ls| ensures AllDefined(ls[i].stmts) {
      LeafDefined(e, i);
    }
  }

  lemma NothingIsDefined()
    ensures AllDefined([])
  {
  }

  /** The static check accepts every statement that is defined. */
  lemma EncodePasses(s: Stmt, k: nat, len: nat)
    requires Defined(s)
    ensures Validator.InsnOk(k, Encode(s), len)
  {
    var insn := Encode(s);
    match s {
      case LdAbs(size, _) => { match size { case Byte => case Half => case Word => } }
      case LdInd(size, _) => { match size { case Byte => case Half => case Word => } }
      case AluK(op, operand) => AluPasses(op, operand, false, k, len);
      case AluX(op) => AluPasses(op, 0, true, k, len);
      case _ =>
    }
  }

  lemma AluPasses(op: AluOp, operand: u32, withX: bool, k: nat, len: nat)
    requires withX || !((op == Div || op == Mod) && operand == 0)
    ensures Validator.InsnOk(k, Insn(ALU + AluBits(op) + (if withX then 8 else 0), 0, 0, operand), len)
  {
    var code := ALU + AluBits(op) + (if withX then 8 else 0);
    assert ClassOf(code) == ALU && OpOf(code) == AluBits(op) && (SrcOf(code) == 8 <==> withX);
    match op {
      case Add => case Sub => case Mul => case Div => case Mod =>
      case BitAnd => case BitOr => case BitXor => case Lsh => case Rsh =>
    }
  }

  /** The static check accepts every converted program. */
  lemma CompletePasses(code: seq<Insn>, bs: seq<Block>, flow: seq<Node>, offset: seq<nat>)
    requires Layered(bs, flow) && BlocksDefined(bs) && Complete(code, flow, offset)
    ensures Validator.Valid(code)
  {
    hide Validator.InsnOk, PlacedAll, Closed, Encode;
    forall k | 0 <= k < |code| ensures Validator.InsnOk(k, code[k], |code|) {
      assert FilledAt(code, flow, k);
      if !Validator.InsnOk(k, code[k], |code|) {
        var j :| 0 <= j < |flow| && HasStmt(flow[j].stmts, code[k]);
        var m :| 0 <= m < |flow[j].stmts| && code[k] == Encode(flow[j].stmts[m]);
        Children(bs, flow, j);
        assert bs[j] in bs && flow[j].stmts[m] in bs[j].stmts;
        EncodePasses(flow[j].stmts[m], k, |code|);
      }
    }
  }

  // ---- How large a program can become -----------------------------------------------------------

  /** The most instructions that a program for these blocks, from the first one on, can have. */
  ghost function Most(bs: seq<Block>): nat
    reads bs`stmts, bs`s, bs`jt, bs`jf
  {
    if Forward(Flow(bs)) && bs != [] then Total(MostSizes(Flow(bs)), Reach(Flow(bs), 0)) else 0
  }

  function Sum(sizes: seq<nat>): nat {
    if sizes == [] then 0 else Sum(sizes[..|sizes| - 1]) + sizes[|sizes| - 1]
  }

  lemma {:induction false} SumAppend(a: seq<nat>, b: seq<nat>)
    ensures Sum(a + b) == Sum(a) + Sum(b)
  {
    if b == [] {
      assert a + b == a;
    } else {
      assert (a + b)[..|a + b| - 1] == a + b[..|b| - 1];
      SumAppend(a, b[..|b| - 1]);
    }
  }

  lemma {:induction false} TotalWithinSum(sizes: seq<nat>, s: set<nat>)
    ensures Total(sizes, s) <= Sum(sizes)
  {
    if sizes != [] { TotalWithinSum(sizes[..|sizes| - 1], s); }
  }

  /** The most that each test of an expression can take, from left to right. */
  function TestSizes(e: Expr): (sizes: seq<nat>)
    ensures |sizes| == Leaves(e)
  {
    match e
    case Leaf(t) => [|t.stmts| + 3]
    case AndThen(left, right) => TestSizes(left) + TestSizes(right)
    case OrElse(left, right) => TestSizes(left) + TestSizes(right)
    case Not(inner) => TestSizes(inner)
  }

  lemma {:induction false} TestSizesAre(e: Expr)
    ensures forall i :: 0 <= i < Leaves(e) ==> TestSizes(e)[i] == |LeafAt(e, i).stmts| + 3
  {
    match e {
      case Leaf(t) =>
      case Not(inner) => TestSizesAre(inner);
      case AndThen(left, right) =>
        TestSizesAre(left);
        TestSizesAre(right);
      case OrElse(left, right) =>
        TestSizesAre(left);
        TestSizesAre(right);
    }
  }

  lemma {:induction false} TestSizesSum(e: Expr)
    ensures Sum(TestSizes(e)) == InsnsOf(e)
  {
    match e {
      case Leaf(t) => assert [|t.stmts| + 3][..0] == [];
      case Not(inner) => TestSizesSum(inner);
      case AndThen(left, right) =>
        TestSizesSum(left);
        TestSizesSum(right);
        SumAppend(TestSizes(left), TestSizes(right));
      case OrElse(left, right) =>
        TestSizesSum(left);
        TestSizesSum(right);
        SumAppend(TestSizes(left), TestSizes(right));
    }
  }

  /** A finished graph takes no more than its tests and its two returns. */
  lemma CompiledIsWithin(ls: seq<Block>, e: Expr, accept: Block, reject: Block, snaplen: u32)
    requires Compiled(ls, e, accept, reject, snaplen)
    ensures Most(ls + [accept, reject]) <= InsnsOf(e) + 6
  {
    hide Compiled, MostSizes, Flow, Sum, Most, TestSizes, InsnsOf;
    MostSizesAre(ls, e, accept, reject, snaplen);
    TestSizesSum(e);
    SumAppend(TestSizes(e), [3, 3]);
    TwoReturns();
    MostWithinSum(ls + [accept, reject]);
  }

  lemma MostSizesAre(ls: seq<Block>, e: Expr, accept: Block, reject: Block, snaplen: u32)
    requires Compiled(ls, e, accept, reject, snaplen)
    ensures MostSizes(Flow(ls + [accept, reject])) == TestSizes(e) + [3, 3]
  {
    hide MostSizes, Flow, LeafAt, TestSizes, Finished, Wires;
    var bs := ls + [accept, reject];
    var most, sizes := MostSizes(Flow(bs)), TestSizes(e) + [3, 3];
    TestSizesAre(e);
    FlowStmts(bs);
    forall i | 0 <= i < |bs| ensures most[i] == sizes[i] {
      if i < |ls| { assert bs[i] == ls[i]; }
    }
  }

  lemma MostWithinSum(bs: seq<Block>)
    ensures Most(bs) <= Sum(MostSizes(Flow(bs)))
  {
    hide Total, Reach, Forward, Flow, MostSizes, Sum;
    if Forward(Flow(bs)) && bs != [] {
      TotalWithinSum(MostSizes(Flow(bs)), Reach(Flow(bs), 0));
    }
  }

  lemma FlowStmts(bs: seq<Block>)
    ensures forall i :: 0 <= i < |bs| ==> Flow(bs)[i].stmts == bs[i].stmts
  {
  }

  lemma TwoReturns()
    ensures Sum([3, 3]) == 6
  {
    assert [3, 3] == [3] + [3];
    SumAppend([3], [3]);
    assert [3][..0] == [];
    assert Sum([3]) == 3;
  }

  // ---- From the graph to the machine ----------------------------------------------------------

  /** The program, started at its first instruction, ends as the graph does. */
  ghost predicate SameRun(code: seq<Insn>, root: Block, bs: seq<Block>, r: Regs, p: Packet)
    reads bs`jt, bs`jf, bs`stmts, bs`s
  {
    Interpreter.Steps(code, Interpreter.Running(0, r), p, |code|) == StatusOf(Run(root, bs, r, p, |bs|))
  }

  /** The conversion keeps the meaning: whatever the registers and the packet, the flat program ends as the graph
      does. */
  method Emit(root: Block, memory: nat, ghost bs: seq<Block>) returns (fp: array?<Insn>)
    requires Convertible(root, bs) && memory <= INT_MAX
    modifies bs`mark, bs`offset, bs`longjt, bs`longjf
    ensures fp == null ==> memory < Most(bs)
    ensures fp != null ==> fresh(fp) && fp.Length <= memory
    ensures fp != null ==> forall r: Regs, p: Packet :: SameRun(fp[..], root, bs, r, p)
    ensures fp != null && BlocksDefined(bs) ==> Validator.Valid(fp[..])
  {
    hide Most, MostSizes, Reach, Offsets, Validator.Valid, BlocksDefined, Layered, Complete, Run, Interpreter.Steps,
         Flow, SameRun, Distinct, Total;
    ghost var flow := Flow(bs);
    LayeredMeans(bs, flow);
    var ic := new Icode(root);
    assert MarksUpTo(bs, 0);
    assert RetsShort(flow, Sizes(bs)) by { UntouchedIsShort(bs, flow); }
    fp := IcodeToFcode(ic, memory, bs, flow);
    if fp == null {
      MostIs(bs);
    }
    if fp != null {
      forall r: Regs, p: Packet ensures SameRun(fp[..], root, bs, r, p) {
        CompleteRuns(fp[..], bs, flow, Offsets(bs), r, p);
      }
      if BlocksDefined(bs) {
        CompletePasses(fp[..], bs, flow, Offsets(bs));
      }
    }
  }

  lemma MostIs(bs: seq<Block>)
    requires bs != [] && Forward(Flow(bs))
    ensures Most(bs) == Total(MostSizes(Flow(bs)), Reach(Flow(bs), 0))
  {
  }

  lemma UntouchedIsShort(bs: seq<Block>, flow: seq<Node>)
    requires Layered(bs, flow) && Untouched(bs)
    ensures RetsShort(flow, Sizes(bs))
  {
    forall i | 0 <= i < |flow| && flow[i].last.Ret? ensures Sizes(bs)[i] == |flow[i].stmts| + 1 {
      Children(bs, flow, i);
      assert bs[i] in bs;
    }
  }

  lemma CompleteRuns(code: seq<Insn>, bs: seq<Block>, flow: seq<Node>, offset: seq<nat>, r: Regs, p: Packet)
    requires Layered(bs, flow) && |bs| > 0 && Complete(code, flow, offset)
    ensures SameRun(code, bs[0], bs, r, p)
  {
    hide Layered, PlacedAll, Closed;
    LayeredMeans(bs, flow);
    ProgramRunsGraph(code, bs, flow, offset, Reach(flow, 0), bs, 0, r, p, |code|, |bs|);
  }
}
