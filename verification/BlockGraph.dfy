/** The branching graph built in place: backpatching, merging and the boolean connectives. */
module BlockGraph {
  import opened Words
  import opened Bpf
  import opened Conditions

  /** The last statement of a block: a conditional jump or a return. */
  datatype Last = Jmp(branch: Branch) | Ret(k: u32)

  /** A count that is 0 or 1. */
  type Flag = n: nat | n <= 1

  class Block {
    var stmts: seq<Stmt>
    var s: Last
    var jt: Block?
    var jf: Block?
    var sense: bool
    var head: Block?

    // For the conversion to a program: when last visited, where placed, and which branches need a long jump.
    var mark: nat
    var offset: nat
    var longjt: Flag
    var longjf: Flag

    // For a top block: the expression it stands for, and its tests from left to right.
    ghost var expr: Expr
    ghost var leaves: seq<Block>

    constructor Cond(stmts: seq<Stmt>, branch: Branch)
      ensures Open() && fresh(this)
      ensures leaves == [this] && expr == Leaf(Test(stmts, branch))
    {
      this.stmts := stmts;
      this.s := Jmp(branch);
      this.jt, this.jf, this.sense := null, null, false;
      this.head := this;
      this.mark, this.offset, this.longjt, this.longjf := 0, 0, 0, 0;
      this.expr := Leaf(Test(stmts, branch));
      this.leaves := [this];
    }

    constructor Return(k: u32)
      ensures stmts == [] && s == Ret(k) && jt == null && jf == null && Untouched([this]) && fresh(this)
    {
      this.stmts := [];
      this.s := Ret(k);
      this.jt, this.jf, this.sense := null, null, false;
      this.head := this;
      this.mark, this.offset, this.longjt, this.longjf := 0, 0, 0, 0;
      this.expr := Leaf(Test([], ByK(Eq, 0)));
      this.leaves := [];
    }

    /** The branch that links this block on the list it is on. */
    function Link(): Block?
      reads `jt, `jf, `sense
    {
      if !sense then jt else jf
    }

    /** A top block under construction. */
    ghost predicate Open()
      reads this, leaves
    {
      && |leaves| >= 1
      && leaves[|leaves| - 1] == this
      && head == leaves[0]
      && Shape(leaves, expr)
      && Untouched(leaves)
    }
  }

  /** No pass over the graph has visited these blocks yet. */
  ghost predicate Untouched(bs: seq<Block>)
    reads bs`mark, bs`longjt, bs`longjf
  {
    forall b <- bs :: b.mark == 0 && b.longjt == 0 && b.longjf == 0
  }

  /** The two branches of a block. */
  datatype Wire = Wire(jt: Block?, jf: Block?) {
    function Edge(branch: bool): Block? {
      if branch then jt else jf
    }
  }

  ghost function Wires(bs: seq<Block>): (ws: seq<Wire>)
    reads bs`jt, bs`jf
    ensures |ws| == |bs| && forall i :: 0 <= i < |bs| ==> ws[i] == Wire(bs[i].jt, bs[i].jf)
  {
    if bs == [] then [] else [Wire(bs[0].jt, bs[0].jf)] + Wires(bs[1..])
  }

  /** The tests of an expression, in separate blocks, with the senses of the table, wired: resolved branches reach
      their tests, and the open ones form two lists, each a chain of links from the top block to null. */
  ghost predicate Shape(bs: seq<Block>, e: Expr)
    reads bs`jt, bs`jf, bs`sense, bs`stmts, bs`s
  {
    |bs| == Leaves(e) && Distinct(bs) && Labelled(bs, e) && Facing(bs, e, true) && Wired(bs, Wires(bs), e)
  }

  ghost predicate Distinct(bs: seq<Block>) {
    forall i, j :: 0 <= i < j < |bs| ==> Differ(bs, i, j)
  }

  ghost predicate Differ(bs: seq<Block>, i: nat, j: nat)
    requires i < j < |bs|
  {
    bs[i] != bs[j]
  }

  lemma AllDiffer(bs: seq<Block>)
    requires Distinct(bs)
    ensures forall i, j :: 0 <= i < j < |bs| ==> bs[i] != bs[j]
  {
    forall i, j | 0 <= i < j < |bs| ensures bs[i] != bs[j] {
      assert Differ(bs, i, j);
    }
  }

  lemma TopAlone(bs: seq<Block>)
    requires |bs| > 0 && Distinct(bs)
    ensures forall i :: 0 <= i < |bs| - 1 ==> bs[i] != bs[|bs| - 1]
  {
    forall i | 0 <= i < |bs| - 1 ensures bs[i] != bs[|bs| - 1] {
      assert Differ(bs, i, |bs| - 1);
    }
  }

  ghost predicate Disjoint(bs: seq<Block>, cs: seq<Block>) {
    forall b <- bs :: b !in cs
  }

  lemma Apart(ls: seq<Block>, rs: seq<Block>)
    requires Disjoint(ls, rs)
    ensures forall i :: 0 <= i < |ls| ==> ls[i] !in rs
    ensures forall i :: 0 <= i < |rs| ==> rs[i] !in ls
  {
    forall i | 0 <= i < |ls| ensures ls[i] !in rs {
      assert ls[i] in ls;
    }
  }

  ghost predicate Labelled(bs: seq<Block>, e: Expr)
    requires |bs| == Leaves(e)
    reads bs`stmts, bs`s
  {
    forall i :: 0 <= i < |bs| ==> bs[i].stmts == LeafAt(e, i).stmts && bs[i].s == Jmp(LeafAt(e, i).branch)
  }

  /** The senses of an expression's blocks while list v is walked: the top's is flipped for the false list. */
  ghost predicate Facing(bs: seq<Block>, e: Expr, v: bool)
    requires |bs| == Leaves(e)
    reads bs`sense
  {
    && bs[|bs| - 1].sense == (SenseAt(e, |bs| - 1) == v)
    && forall i :: 0 <= i < |bs| - 1 ==> bs[i].sense == SenseAt(e, i)
  }

  ghost predicate Wired(bs: seq<Block>, ws: seq<Wire>, e: Expr)
    requires |bs| == |ws| == Leaves(e)
  {
    Resolved(bs, ws, e) && Chained(bs, ws, e, true, null) && Chained(bs, ws, e, false, null)
  }

  ghost predicate Resolved(bs: seq<Block>, ws: seq<Wire>, e: Expr)
    requires |bs| == |ws| == Leaves(e)
  {
    forall i, branch :: 0 <= i < |bs| && Slot(e, i, branch).To? && Slot(e, i, branch).leaf < |bs| ==>
      ws[i].Edge(branch) == bs[Slot(e, i, branch).leaf]
  }

  /** List v is a chain of links through the tests in Exits(e, v), ending in `end`. */
  ghost predicate Chained(bs: seq<Block>, ws: seq<Wire>, e: Expr, v: bool, end: Block?)
    requires |bs| == |ws| == Leaves(e)
  {
    forall j :: 0 <= j < |Exits(e, v)| ==> ChainedAt(bs, ws, e, v, end, j)
  }

  ghost predicate ChainedAt(bs: seq<Block>, ws: seq<Wire>, e: Expr, v: bool, end: Block?, j: nat)
    requires |bs| == |ws| == Leaves(e) && j < |Exits(e, v)|
  {
    var xs := Exits(e, v);
    && xs[j] < |bs|
    && ws[xs[j]].Edge(LinkBranch(e, xs[j], v)) == if j + 1 < |xs| && xs[j + 1] < |bs| then bs[xs[j + 1]] else end
  }

  // ---- The lists as chains of blocks ---------------------------------------------

  /** The blocks of list v, in link order. */
  ghost function ListOf(bs: seq<Block>, e: Expr, v: bool): (cs: seq<Block>)
    requires |bs| == Leaves(e)
    ensures |cs| == |Exits(e, v)| >= 1
    ensures forall j :: 0 <= j < |cs| ==> Exits(e, v)[j] < |bs| && cs[j] == bs[Exits(e, v)[j]]
    ensures cs[0] == bs[|bs| - 1]
  {
    ExitsGoDown(e, v);
    seq(|Exits(e, v)|, j requires 0 <= j < |Exits(e, v)| => bs[Exits(e, v)[j]])
  }

  /** A null-terminated chain of links through separate blocks. */
  ghost predicate IsChain(cs: seq<Block>)
    reads cs`jt, cs`jf, cs`sense
  {
    Distinct(cs) && forall j :: 0 <= j < |cs| ==> LinksOn(cs, j)
  }

  ghost predicate LinksOn(cs: seq<Block>, j: nat)
    requires j < |cs|
    reads cs`jt, cs`jf, cs`sense
  {
    cs[j].Link() == if j + 1 < |cs| then cs[j + 1] else null
  }

  lemma ListIsChain(bs: seq<Block>, e: Expr, v: bool)
    requires |bs| == Leaves(e) && Distinct(bs) && Facing(bs, e, v) && Chained(bs, Wires(bs), e, v, null)
    ensures IsChain(ListOf(bs, e, v))
  {
    hide Exits, Distinct, Facing;
    ListEnds(e, v);
    var xs, cs := Exits(e, v), ListOf(bs, e, v);
    forall j | 0 <= j < |cs| ensures LinksOn(cs, j) {
      assert ChainedAt(bs, Wires(bs), e, v, null, j);
      LinkOfListed(bs, e, v, j);
    }
    forall j, k | 0 <= j < k < |cs| ensures Differ(cs, j, k) {
      DownPair(e, v, j, k);
      Separate(bs, xs[k], xs[j]);
    }
    ManyDiffer(cs);
  }

  lemma ManyDiffer(cs: seq<Block>)
    requires forall j, k :: 0 <= j < k < |cs| ==> Differ(cs, j, k)
    ensures Distinct(cs)
  {
  }

  /** While list v is walked, a listed block's link branch is its Link; only the last block on it is last. */
  lemma LinkOfListed(bs: seq<Block>, e: Expr, v: bool, j: nat)
    requires |bs| == Leaves(e) && Distinct(bs) && Facing(bs, e, v) && j < |Exits(e, v)|
    ensures Exits(e, v)[j] < |bs|
    ensures LinkBranch(e, Exits(e, v)[j], v) == !bs[Exits(e, v)[j]].sense
    ensures j < |Exits(e, v)| - 1 ==> bs[Exits(e, v)[j]] != LastOn(bs, e, v)
  {
    hide Exits, Distinct;
    ListEnds(e, v);
    var xs := Exits(e, v);
    if j > 0 { DownPair(e, v, 0, j); }
    if j < |xs| - 1 {
      DownPair(e, v, j, |xs| - 1);
      Separate(bs, xs[|xs| - 1], xs[j]);
    }
  }

  lemma Separate(bs: seq<Block>, i: nat, j: nat)
    requires Distinct(bs) && i < j < |bs|
    ensures bs[i] != bs[j]
  {
    assert Differ(bs, i, j);
  }

  /** The last block on list v of an expression. */
  ghost function LastOn(bs: seq<Block>, e: Expr, v: bool): (b: Block)
    requires |bs| == Leaves(e)
    ensures b in bs
  {
    ListEnds(e, v);
    bs[Exits(e, v)[|Exits(e, v)| - 1]]
  }

  lemma OnList(bs: seq<Block>, e: Expr, v: bool, i: nat)
    requires i < |bs| == Leaves(e) && Distinct(bs)
    ensures bs[i] in ListOf(bs, e, v) <==> i in Exits(e, v)
  {
    AllDiffer(bs);
    var xs, cs := Exits(e, v), ListOf(bs, e, v);
    if i in xs {
      var j :| 0 <= j < |xs| && xs[j] == i;
      assert cs[j] == bs[i];
    }
  }

  // ---- Backpatch ------------------------------------------------------------------

  /** The branches that were open with value v now lead to the target, and no other branch has changed. */
  ghost predicate Patched(was: seq<Wire>, ws: seq<Wire>, e: Expr, v: bool, target: Block?)
    requires |was| == |ws| == Leaves(e)
  {
    && (forall i, branch :: 0 <= i < |ws| && Slot(e, i, branch) == Out(v) ==> ws[i].Edge(branch) == target)
    && (forall i, branch :: 0 <= i < |ws| && Slot(e, i, branch) != Out(v) ==>
          ws[i].Edge(branch) == was[i].Edge(branch))
  }

  /** The link of the first n blocks of a chain has been set; nothing else has changed. */
  ghost predicate PatchedTo(cs: seq<Block>, was: seq<Wire>, n: nat, target: Block?)
    requires |was| == |cs|
    reads cs`jt, cs`jf, cs`sense
  {
    forall j :: 0 <= j < |cs| ==>
      && cs[j].jt == (if j < n && !cs[j].sense then target else was[j].jt)
      && cs[j].jf == (if j < n && cs[j].sense then target else was[j].jf)
  }

  /** Sets the link of every block on a list. */
  method Backpatch(list: Block?, target: Block, ghost chain: seq<Block>)
    requires IsChain(chain) && list == if chain == [] then null else chain[0]
    modifies chain`jt, chain`jf
    ensures PatchedTo(chain, old(Wires(chain)), |chain|, target)
  {
    hide Wires;
    ghost var was := Wires(chain);
    AllDiffer(chain);
    ChainWires(chain);
    var p := list;
    ghost var n := 0;
    while p != null
      invariant 0 <= n <= |chain| && p == if n < |chain| then chain[n] else null
      invariant PatchedTo(chain, was, n, target)
      decreases |chain| - n
    {
      var next;
      if !p.sense {
        next := p.jt;
        p.jt := target;
      } else {
        next := p.jf;
        p.jf := target;
      }
      p := next;
      n := n + 1;
    }
  }

  /** Backpatching list v of an expression resolves its open branches, and no others. */
  method Resolve(b: Block, target: Block, ghost bs: seq<Block>, ghost e: Expr, ghost v: bool)
    requires |bs| == Leaves(e) && Distinct(bs) && b == bs[|bs| - 1]
    requires Facing(bs, e, v) && Chained(bs, Wires(bs), e, v, null)
    modifies bs`jt, bs`jf
    ensures Patched(old(Wires(bs)), Wires(bs), e, v, target)
  {
    hide Wires, Chained, Facing, Patched, Distinct, IsChain, PatchedTo;
    ghost var chain, was, before := ListOf(bs, e, v), Wires(ListOf(bs, e, v)), Wires(bs);
    ListIsChain(bs, e, v);
    Backpatch(b, target, chain);
    PatchedAll(bs, before, was, e, v, target);
  }

  /** A chain's links, read off its wires. */
  lemma ChainWires(cs: seq<Block>)
    requires IsChain(cs)
    ensures forall j :: 0 <= j < |cs| ==>
      Wires(cs)[j].Edge(!cs[j].sense) == if j + 1 < |cs| then cs[j + 1] else null
  {
    hide Wires;
    forall j | 0 <= j < |cs| ensures Wires(cs)[j].Edge(!cs[j].sense) == if j + 1 < |cs| then cs[j + 1] else null {
      assert LinksOn(cs, j);
    }
  }

  lemma PatchedAll(bs: seq<Block>, before: seq<Wire>, was: seq<Wire>, e: Expr, v: bool, target: Block?)
    requires |bs| == |before| == Leaves(e) && Distinct(bs) && Facing(bs, e, v)
    requires |was| == |Exits(e, v)| && PatchedTo(ListOf(bs, e, v), was, |was|, target)
    requires forall j :: 0 <= j < |was| ==> was[j] == before[Exits(e, v)[j]]
    requires forall i :: 0 <= i < |bs| && bs[i] !in ListOf(bs, e, v) ==> Wires(bs)[i] == before[i]
    ensures Patched(before, Wires(bs), e, v, target)
  {
    hide Wires;
    var ws, xs := Wires(bs), Exits(e, v);
    forall i, branch | 0 <= i < |bs|
      ensures ws[i].Edge(branch) == if Slot(e, i, branch) == Out(v) then target else before[i].Edge(branch)
    {
      OpenSlots(e, i, branch, v);
      OnList(bs, e, v, i);
      if i in xs {
        var j :| 0 <= j < |xs| && xs[j] == i;
        LinkOfListed(bs, e, v, j);
        assert ListOf(bs, e, v)[j] == bs[i];
      }
    }
  }

  // ---- Merge ------------------------------------------------------------------------

  /** List v now ends in b1 instead of null, and no branch outside it has changed. */
  ghost predicate Extended(bs: seq<Block>, was: seq<Wire>, ws: seq<Wire>, e: Expr, v: bool, b1: Block)
    requires |bs| == |was| == |ws| == Leaves(e)
  {
    && Chained(bs, ws, e, v, b1)
    && (forall i, branch :: 0 <= i < |ws| && Slot(e, i, branch) != Out(v) ==>
          ws[i].Edge(branch) == was[i].Edge(branch))
  }

  /** Appends the list starting at b1 to list v of an expression: only the last link of that list changes. */
  method Merge(b0: Block, b1: Block, ghost bs: seq<Block>, ghost e: Expr, ghost v: bool)
    requires |bs| == Leaves(e) && Distinct(bs) && b0 == bs[|bs| - 1]
    requires Facing(bs, e, v) && Chained(bs, Wires(bs), e, v, null)
    modifies bs`jt, bs`jf
    ensures Extended(bs, old(Wires(bs)), Wires(bs), e, v, b1)
  {
    hide Wires, Extended, Chained, Facing;
    ghost var chain, before := ListOf(bs, e, v), Wires(bs);
    ListIsChain(bs, e, v);
    var p := b0;
    ghost var n := 0;
    while p.Link() != null
      invariant 0 <= n < |chain| && p == chain[n]
      decreases |chain| - n
    {
      assert LinksOn(chain, n);
      p := if !p.sense then p.jt else p.jf;
      n := n + 1;
    }
    assert LinksOn(chain, n);
    assert p == LastOn(bs, e, v);
    if !p.sense { p.jt := b1; } else { p.jf := b1; }
    ExtendedAll(bs, before, e, v, b1);
  }

  lemma ExtendedAll(bs: seq<Block>, was: seq<Wire>, e: Expr, v: bool, b1: Block)
    requires |bs| == |was| == Leaves(e) && Distinct(bs) && Facing(bs, e, v)
    requires Chained(bs, was, e, v, null)
    requires forall i :: 0 <= i < |bs| ==>
      Wires(bs)[i] == if bs[i] != LastOn(bs, e, v) then was[i]
                      else if !bs[i].sense then Wire(b1, was[i].jf) else Wire(was[i].jt, b1)
    ensures Extended(bs, was, Wires(bs), e, v, b1)
  {
    hide Wires, Exits, Distinct, Facing;
    ListEnds(e, v);
    var xs, ws := Exits(e, v), Wires(bs);
    var m := xs[|xs| - 1];
    LinkOfListed(bs, e, v, |xs| - 1);
    forall j | 0 <= j < |xs| ensures ChainedAt(bs, ws, e, v, b1, j) {
      assert ChainedAt(bs, was, e, v, null, j);
      LinkOfListed(bs, e, v, j);
    }
    forall i, branch | 0 <= i < |ws| && Slot(e, i, branch) != Out(v) ensures ws[i].Edge(branch) == was[i].Edge(branch) {
      AllDiffer(bs);
      OpenSlots(e, i, branch, v);
    }
  }

  // ---- Wiring two expressions together ------------------------------------------------

  /** Lists and resolved branches whose edges have not changed are still lists and resolved branches. */
  lemma ChainKept(bs: seq<Block>, was: seq<Wire>, ws: seq<Wire>, e: Expr, v: bool, end: Block?)
    requires |bs| == |was| == |ws| == Leaves(e) && Chained(bs, was, e, v, end)
    requires forall i, branch :: 0 <= i < |bs| && Slot(e, i, branch) == Out(v) ==>
               ws[i].Edge(branch) == was[i].Edge(branch)
    ensures Chained(bs, ws, e, v, end)
  {
    forall j | 0 <= j < |Exits(e, v)| ensures ChainedAt(bs, ws, e, v, end, j) {
      assert ChainedAt(bs, was, e, v, end, j);
      var i := Exits(e, v)[j];
      OpenSlots(e, i, LinkBranch(e, i, v), v);
    }
  }

  lemma ResolvedKept(bs: seq<Block>, was: seq<Wire>, ws: seq<Wire>, e: Expr)
    requires |bs| == |was| == |ws| == Leaves(e) && Resolved(bs, was, e)
    requires forall i, branch :: 0 <= i < |bs| && Slot(e, i, branch).To? ==> ws[i].Edge(branch) == was[i].Edge(branch)
    ensures Resolved(bs, ws, e)
  {
  }

  /** Two expressions joined by a connective. */
  ghost predicate Joint(ls: seq<Block>, rs: seq<Block>, e: Expr) {
    (e.AndThen? || e.OrElse?) && |ls| == Leaves(e.left) && |rs| == Leaves(e.right)
  }

  /** An operand's list keeps its link branches inside the whole. */
  lemma SameLinkBranch(e: Expr, i: nat, v: bool)
    requires e.AndThen? || e.OrElse?
    ensures i < Leaves(e.right) ==> LinkBranch(e, i + Leaves(e.left), v) == LinkBranch(e.right, i, v)
    ensures i < Leaves(e.left) && v != e.AndThen? ==> LinkBranch(e, i, v) == LinkBranch(e.left, i, v)
  {
  }

  lemma RightLink(ls: seq<Block>, rs: seq<Block>, lw: seq<Wire>, rw: seq<Wire>, e: Expr, v: bool, j: nat)
    requires Joint(ls, rs, e) && |lw| == |ls| && |rw| == |rs| && j < |Exits(e.right, v)|
    requires ChainedAt(rs, rw, e.right, v, if v == e.AndThen? then null else ls[|ls| - 1], j)
    ensures j < |Exits(e, v)| && ChainedAt(ls + rs, lw + rw, e, v, null, j)
  {
    hide Exits;
    var xr := Exits(e.right, v);
    ListEnds(e.left, v);
    ListEnds(e.right, v);
    SameLinkBranch(e, xr[j], v);
    ExitsOf(e, v);
  }

  lemma LeftLink(ls: seq<Block>, rs: seq<Block>, lw: seq<Wire>, rw: seq<Wire>, e: Expr, v: bool, j: nat)
    requires Joint(ls, rs, e) && |lw| == |ls| && |rw| == |rs|
    requires v != e.AndThen? && j < |Exits(e.left, v)| && ChainedAt(ls, lw, e.left, v, null, j)
    ensures j + |Exits(e.right, v)| < |Exits(e, v)|
    ensures ChainedAt(ls + rs, lw + rw, e, v, null, j + |Exits(e.right, v)|)
  {
    hide Exits;
    ListEnds(e.left, v);
    SameLinkBranch(e, Exits(e.left, v)[j], v);
    ExitsOf(e, v);
  }

  /** The whole's list v: the right operand's list, and for the value that does not decide the left's after it. */
  lemma JoinedChain(ls: seq<Block>, rs: seq<Block>, lw: seq<Wire>, rw: seq<Wire>, e: Expr, v: bool)
    requires Joint(ls, rs, e) && |lw| == |ls| && |rw| == |rs|
    requires Chained(rs, rw, e.right, v, if v == e.AndThen? then null else ls[|ls| - 1])
    requires v != e.AndThen? ==> Chained(ls, lw, e.left, v, null)
    ensures Chained(ls + rs, lw + rw, e, v, null)
  {
    var n := |Exits(e.right, v)|;
    forall j | 0 <= j < |Exits(e, v)| ensures ChainedAt(ls + rs, lw + rw, e, v, null, j) {
      if j < n {
        RightLink(ls, rs, lw, rw, e, v, j);
      } else {
        LeftLink(ls, rs, lw, rw, e, v, j - n);
      }
    }
  }

  lemma JoinedResolved(ls: seq<Block>, rs: seq<Block>, lw: seq<Wire>, rw: seq<Wire>, e: Expr)
    requires Joint(ls, rs, e) && |lw| == |ls| && |rw| == |rs|
    requires Resolved(ls, lw, e.left) && Resolved(rs, rw, e.right)
    requires forall i, branch :: 0 <= i < |ls| && Slot(e.left, i, branch) == Out(e.AndThen?) ==>
               lw[i].Edge(branch) == rs[0]
    ensures Resolved(ls + rs, lw + rw, e)
  {
    var bs, ws, n := ls + rs, lw + rw, |ls|;
    forall i, branch | 0 <= i < |bs| && Slot(e, i, branch).To? && Slot(e, i, branch).leaf < |bs|
      ensures ws[i].Edge(branch) == bs[Slot(e, i, branch).leaf]
    {
      if i < n { SlotsGoForward(e.left, i, branch); } else { SlotsGoForward(e.right, i - n, branch); }
    }
  }

  /** Backpatching the left operand's deciding list to the right operand's first test, and hanging its other list
      on the end of the right operand's, wires the whole. */
  lemma JoinedIsWired(ls: seq<Block>, rs: seq<Block>, lw: seq<Wire>, rw: seq<Wire>,
                      lw': seq<Wire>, rw': seq<Wire>, e: Expr)
    requires Joint(ls, rs, e) && |lw| == |lw'| == |ls| && |rw| == |rw'| == |rs|
    requires Wired(ls, lw, e.left) && Wired(rs, rw, e.right)
    requires Patched(lw, lw', e.left, e.AndThen?, rs[0])
    requires Extended(rs, rw, rw', e.right, !e.AndThen?, ls[|ls| - 1])
    ensures Wired(ls + rs, lw' + rw', e)
  {
    var go := e.AndThen?;
    ResolvedKept(ls, lw, lw', e.left);
    ResolvedKept(rs, rw, rw', e.right);
    ChainKept(ls, lw, lw', e.left, !go, null);
    ChainKept(rs, rw, rw', e.right, go, null);
    JoinedResolved(ls, rs, lw', rw', e);
    JoinedChain(ls, rs, lw', rw', e, go);
    JoinedChain(ls, rs, lw', rw', e, !go);
  }

  lemma JoinedLabels(ls: seq<Block>, rs: seq<Block>, e: Expr)
    requires Joint(ls, rs, e) && Distinct(ls) && Distinct(rs) && Disjoint(ls, rs)
    requires Labelled(ls, e.left) && Labelled(rs, e.right)
    ensures Distinct(ls + rs) && Labelled(ls + rs, e)
  {
    var bs, n := ls + rs, |ls|;
    forall i, j | 0 <= i < j < |bs| ensures Differ(bs, i, j) {
      if j < n {
        assert Differ(ls, i, j);
      } else if i >= n {
        assert Differ(rs, i - n, j - n);
      } else {
        assert bs[i] in ls && bs[j] in rs;
      }
    }
  }

  /** The senses of the whole: gen_and has flipped the left operand's top, gen_or has flipped nothing. */
  lemma JoinedSenses(ls: seq<Block>, rs: seq<Block>, e: Expr)
    requires Joint(ls, rs, e) && Facing(ls, e.left, e.OrElse?) && Facing(rs, e.right, true)
    ensures Facing(ls + rs, e, true)
  {
  }

  lemma ListsOf(bs: seq<Block>, ws: seq<Wire>, e: Expr)
    requires |bs| == |ws| == Leaves(e) && Wired(bs, ws, e)
    ensures Chained(bs, ws, e, true, null) && Chained(bs, ws, e, false, null)
  {
  }

  // ---- The connectives ----------------------------------------------------------------

  method GenNot(b: Block)
    requires b.Open()
    modifies b
    ensures b.Open() && b.expr == Not(old(b.expr)) && b.leaves == old(b.leaves)
  {
    hide Wires, Wired;
    TopAlone(b.leaves);
    NotIsWired(b.leaves, Wires(b.leaves), Not(b.expr));
    b.sense := !b.sense;
    b.expr := Not(b.expr);
  }

  /** Negation swaps the two lists and leaves every edge in place. */
  lemma NotIsWired(bs: seq<Block>, ws: seq<Wire>, e: Expr)
    requires e.Not? && |bs| == |ws| == Leaves(e) && Wired(bs, ws, e.inner)
    ensures Wired(bs, ws, e)
  {
    forall v, j | 0 <= j < |Exits(e, v)| ensures ChainedAt(bs, ws, e, v, null, j) {
      assert ChainedAt(bs, ws, e.inner, !v, null, j);
    }
  }

  /** The operands of gen_and and gen_or. */
  ghost predicate Operands(ls: seq<Block>, rs: seq<Block>, e: Expr)
    reads ls`jt, ls`jf, ls`sense, ls`stmts, ls`s, rs`jt, rs`jf, rs`sense, rs`stmts, rs`s
  {
    (e.AndThen? || e.OrElse?) && Shape(ls, e.left) && Shape(rs, e.right) && Disjoint(ls, rs)
  }

  lemma OperandsOf(ls: seq<Block>, rs: seq<Block>, e: Expr)
    requires (e.AndThen? || e.OrElse?) && Shape(ls, e.left) && Shape(rs, e.right) && Disjoint(ls, rs)
    ensures Operands(ls, rs, e)
    ensures |ls| == Leaves(e.left) && |rs| == Leaves(e.right)
  {
  }

  lemma UntouchedBoth(ls: seq<Block>, rs: seq<Block>)
    requires Untouched(ls) && Untouched(rs)
    ensures Untouched(ls + rs)
  {
  }

  lemma ShapeOf(bs: seq<Block>, e: Expr)
    requires |bs| == Leaves(e) && Distinct(bs) && Labelled(bs, e) && Facing(bs, e, true) && Wired(bs, Wires(bs), e)
    ensures Shape(bs, e)
  {
  }

  method GenAnd(b0: Block, b1: Block)
    requires b0.Open() && b1.Open() && Disjoint(b0.leaves, b1.leaves)
    modifies b0.leaves, b1.leaves
    ensures b1.Open()
    ensures b1.expr == AndThen(old(b0.expr), old(b1.expr)) && b1.leaves == old(b0.leaves + b1.leaves)
  {
    hide Wires, Shape, Operands, Wired, Labelled, Distinct, Facing, Untouched;
    ghost var ls, rs, e := b0.leaves, b1.leaves, AndThen(b0.expr, b1.expr);
    OperandsOf(ls, rs, e);
    LinkAnd(b0, b1, b1.head, ls, rs, e);
    b1.head := b0.head;
    b1.expr, b1.leaves := e, ls + rs;
    UntouchedBoth(ls, rs);
  }

  /** The list operations of gen_and, with the sense bits flipped around them. */
  method LinkAnd(b0: Block, b1: Block, head: Block, ghost ls: seq<Block>, ghost rs: seq<Block>, ghost e: Expr)
    requires Operands(ls, rs, e) && e.AndThen?
    requires b0 == ls[|ls| - 1] && b1 == rs[|rs| - 1] && head == rs[0]
    modifies ls`jt, ls`jf, rs`jt, rs`jf, b0`sense, b1`sense
    ensures Shape(ls + rs, e)
  {
    hide Wires, Wired, Extended, Patched, Labelled, Distinct, Chained, Disjoint, Facing;
    JoinedLabels(ls, rs, e);
    ghost var lw, rw := Wires(ls), Wires(rs);
    ListsOf(ls, lw, e.left);
    ListsOf(rs, rw, e.right);
    Resolve(b0, head, ls, e.left, true);
    ghost var lw' := Wires(ls);
    assert Wires(rs) == rw by { Apart(ls, rs); }
    FlipSense(b0, ls, e.left, true);
    assert Facing(rs, e.right, true) by { Apart(ls, rs); }
    MergeFalse(b1, b0, rs, e.right);
    assert Wires(ls) == lw' && Facing(ls, e.left, false) by { Apart(ls, rs); }
    JoinedIsWired(ls, rs, lw, rw, lw', Wires(rs), e);
    WiresAppend(ls, rs);
    JoinedSenses(ls, rs, e);
    ShapeOf(ls + rs, e);
  }

  lemma WiresAppend(ls: seq<Block>, rs: seq<Block>)
    ensures Wires(ls + rs) == Wires(ls) + Wires(rs)
  {
    hide Wires;
  }

  /** Merging the false lists: the sense bit is flipped for the walk and flipped back. */
  method MergeFalse(b0: Block, b1: Block, ghost bs: seq<Block>, ghost e: Expr)
    requires |bs| == Leaves(e) && Distinct(bs) && b0 == bs[|bs| - 1]
    requires Facing(bs, e, true) && Chained(bs, Wires(bs), e, false, null)
    modifies bs`jt, bs`jf, b0`sense
    ensures Extended(bs, old(Wires(bs)), Wires(bs), e, false, b1) && Facing(bs, e, true)
  {
    hide Wires, Extended, Distinct, Chained, Facing;
    FlipSense(b0, bs, e, true);
    Merge(b0, b1, bs, e, false);
    FlipSense(b0, bs, e, false);
  }

  /** Resolving the false list: the sense bit is flipped for the walk and flipped back. */
  method ResolveFalse(b: Block, target: Block, ghost bs: seq<Block>, ghost e: Expr)
    requires |bs| == Leaves(e) && Distinct(bs) && b == bs[|bs| - 1]
    requires Facing(bs, e, true) && Chained(bs, Wires(bs), e, false, null)
    modifies bs`jt, bs`jf, b`sense
    ensures Patched(old(Wires(bs)), Wires(bs), e, false, target) && Facing(bs, e, true)
  {
    hide Wires, Patched, Distinct, Chained, Facing;
    FlipSense(b, bs, e, true);
    Resolve(b, target, bs, e, false);
    FlipSense(b, bs, e, false);
  }

  /** Flipping the top's sense bit turns to the other list. */
  method FlipSense(b: Block, ghost bs: seq<Block>, ghost e: Expr, ghost v: bool)
    requires |bs| == Leaves(e) && Distinct(bs) && b == bs[|bs| - 1] && Facing(bs, e, v)
    modifies b`sense
    ensures Facing(bs, e, !v)
  {
    TopAlone(bs);
    b.sense := !b.sense;
  }

  /** The list operations of gen_or. */
  method LinkOr(b0: Block, b1: Block, head: Block, ghost ls: seq<Block>, ghost rs: seq<Block>, ghost e: Expr)
    requires Operands(ls, rs, e) && e.OrElse?
    requires b0 == ls[|ls| - 1] && b1 == rs[|rs| - 1] && head == rs[0]
    modifies ls`jt, ls`jf, rs`jt, rs`jf, b0`sense
    ensures Shape(ls + rs, e)
  {
    hide Wires, Wired, Extended, Patched, Labelled, Distinct, Chained, Disjoint, Facing;
    JoinedLabels(ls, rs, e);
    ghost var lw, rw := Wires(ls), Wires(rs);
    ListsOf(ls, lw, e.left);
    ListsOf(rs, rw, e.right);
    ResolveFalse(b0, head, ls, e.left);
    ghost var lw' := Wires(ls);
    assert Wires(rs) == rw && Facing(rs, e.right, true) by { Apart(ls, rs); }
    Merge(b1, b0, rs, e.right, true);
    assert Wires(ls) == lw' by { Apart(ls, rs); }
    JoinedIsWired(ls, rs, lw, rw, lw', Wires(rs), e);
    WiresAppend(ls, rs);
    JoinedSenses(ls, rs, e);
    ShapeOf(ls + rs, e);
  }

  method GenOr(b0: Block, b1: Block)
    requires b0.Open() && b1.Open() && Disjoint(b0.leaves, b1.leaves)
    modifies b0.leaves, b1.leaves
    ensures b1.Open()
    ensures b1.expr == OrElse(old(b0.expr), old(b1.expr)) && b1.leaves == old(b0.leaves + b1.leaves)
  {
    hide Wires, Shape, Operands, Wired, Labelled, Distinct, Facing, Untouched;
    ghost var ls, rs, e := b0.leaves, b1.leaves, OrElse(b0.expr, b1.expr);
    OperandsOf(ls, rs, e);
    LinkOr(b0, b1, b1.head, ls, rs, e);
    b1.head := b0.head;
    b1.expr, b1.leaves := e, ls + rs;
    UntouchedBoth(ls, rs);
  }

  // ---- The finished graph ---------------------------------------------------------

  /** No branch is open: every one reaches its test or one of the two return blocks. */
  ghost predicate Finished(bs: seq<Block>, ws: seq<Wire>, e: Expr, accept: Block, reject: Block)
    requires |bs| == |ws| == Leaves(e)
  {
    forall i, branch :: 0 <= i < |bs| ==>
      ws[i].Edge(branch) ==
      match Slot(e, i, branch)
      case To(j) => if j < |bs| then bs[j] else null
      case Out(v) => if v then accept else reject
  }

  /** finish_parse: statements in front of the first test, an optional link-type check before everything,
      then the true list to a return of the snapshot length and the false list to a return of 0. */
  method FinishParse(p: Block, prefix: seq<Stmt>, linkCheck: Block?, snaplen: u32)
    returns (root: Block, ghost accept: Block, ghost reject: Block)
    requires p.Open()
    requires linkCheck != null ==> linkCheck.Open() && Disjoint(linkCheck.leaves, p.leaves)
    modifies p.leaves, if linkCheck == null then [] else linkCheck.leaves
    ensures p.expr == if linkCheck == null then old(Prefixed(p.expr, prefix))
                      else AndThen(old(linkCheck.expr), old(Prefixed(p.expr, prefix)))
    ensures |p.leaves| == Leaves(p.expr) && root == p.leaves[0] && fresh(accept) && fresh(reject)
    ensures p.leaves == if linkCheck == null then old(p.leaves) else old(linkCheck.leaves + p.leaves)
    ensures Compiled(p.leaves, p.expr, accept, reject, snaplen)
    ensures Distinct(p.leaves + [accept, reject]) && Untouched(p.leaves + [accept, reject])
  {
    hide Wires, Shape, Finished;
    if linkCheck != null {
      assert linkCheck != p by { Apart(linkCheck.leaves, p.leaves); }
    }
    InsertFirst(p, prefix);
    if linkCheck != null {
      assert linkCheck.Open() by { Apart(linkCheck.leaves, p.leaves); }
      GenAnd(linkCheck, p);
    }
    accept, reject := CloseLists(p, snaplen);
    root := p.head;
  }

  /** The graph of a whole filter. */
  ghost predicate Compiled(bs: seq<Block>, e: Expr, accept: Block, reject: Block, snaplen: u32)
    reads bs`jt, bs`jf, bs`stmts, bs`s
    reads {accept, reject}`stmts, {accept, reject}`s, {accept, reject}`jt, {accept, reject}`jf
  {
    && |bs| == Leaves(e) && Labelled(bs, e) && Finished(bs, Wires(bs), e, accept, reject)
    && accept.stmts == reject.stmts == [] && accept.s == Ret(snaplen) && reject.s == Ret(0)
    && accept.jt == accept.jf == reject.jt == reject.jf == null
  }

  method InsertFirst(p: Block, prefix: seq<Stmt>)
    requires p.Open()
    modifies p.leaves`stmts, p`expr
    ensures p.Open() && p.expr == Prefixed(old(p.expr), prefix)
  {
    hide Wires, Wired;
    ghost var bs, e := p.leaves, p.expr;
    p.head.stmts := prefix + p.head.stmts;
    p.expr := Prefixed(e, prefix);
    PrefixKeepsTable(e, prefix);
    PrefixKeepsWiring(bs, Wires(bs), e, prefix);
    assert forall i :: 0 < i < |bs| ==> bs[i] != bs[0] by { AllDiffer(bs); }
  }

  lemma PrefixKeepsWiring(bs: seq<Block>, ws: seq<Wire>, e: Expr, prefix: seq<Stmt>)
    requires |bs| == |ws| == Leaves(e) && Wired(bs, ws, e)
    ensures Wired(bs, ws, Prefixed(e, prefix))
  {
    var e' := Prefixed(e, prefix);
    PrefixKeepsTable(e, prefix);
    forall v, j | 0 <= j < |Exits(e', v)| ensures ChainedAt(bs, ws, e', v, null, j) {
      assert ChainedAt(bs, ws, e, v, null, j);
    }
  }

  /** The two backpatches of finish_parse. */
  method CloseLists(p: Block, snaplen: u32) returns (yes: Block, no: Block)
    requires p.Open()
    modifies p.leaves`jt, p.leaves`jf, p`sense
    ensures Compiled(p.leaves, p.expr, yes, no, snaplen) && fresh(yes) && fresh(no)
    ensures Distinct(p.leaves + [yes, no]) && Untouched(p.leaves + [yes, no])
  {
    hide Wires, Wired, Distinct, Facing, Finished, Labelled, Untouched;
    yes := new Block.Return(snaplen);
    no := new Block.Return(0);
    UntouchedBoth([yes], [no]);
    assert [yes] + [no] == [yes, no];
    ResolveBoth(p, yes, no, p.leaves, p.expr);
    TwoMore(p.leaves, yes, no);
  }

  lemma TwoMore(bs: seq<Block>, yes: Block, no: Block)
    requires Distinct(bs) && Untouched(bs) && yes !in bs && no !in bs && yes != no && Untouched([yes, no])
    ensures Distinct(bs + [yes, no]) && Untouched(bs + [yes, no])
  {
    var cs := bs + [yes, no];
    AllDiffer(bs);
    forall i, j | 0 <= i < j < |cs| ensures Differ(cs, i, j) {
    }
  }

  method ResolveBoth(p: Block, yes: Block, no: Block, ghost bs: seq<Block>, ghost e: Expr)
    requires Shape(bs, e) && p == bs[|bs| - 1]
    modifies bs`jt, bs`jf, p`sense
    ensures Finished(bs, Wires(bs), e, yes, no)
  {
    hide Wires, Wired, Patched, Distinct, Chained, Facing, Finished, Labelled;
    ghost var w0 := Wires(bs);
    ListsOf(bs, w0, e);
    Resolve(p, yes, bs, e, true);
    ghost var w1 := Wires(bs);
    FalseListKept(bs, w0, w1, e, yes);
    FlipSense(p, bs, e, true);
    Resolve(p, no, bs, e, false);
    BothResolved(bs, w0, w1, Wires(bs), e, yes, no);
  }

  lemma FalseListKept(bs: seq<Block>, w0: seq<Wire>, w1: seq<Wire>, e: Expr, accept: Block)
    requires |bs| == |w0| == |w1| == Leaves(e)
    requires Chained(bs, w0, e, false, null) && Patched(w0, w1, e, true, accept)
    ensures Chained(bs, w1, e, false, null)
  {
    ChainKept(bs, w0, w1, e, false, null);
  }

  lemma BothResolved(bs: seq<Block>, w0: seq<Wire>, w1: seq<Wire>, w2: seq<Wire>, e: Expr, accept: Block, reject: Block)
    requires |bs| == |w0| == |w1| == |w2| == Leaves(e) && Wired(bs, w0, e)
    requires Patched(w0, w1, e, true, accept) && Patched(w1, w2, e, false, reject)
    ensures Finished(bs, w2, e, accept, reject)
  {
    forall i, branch | 0 <= i < |bs|
      ensures w2[i].Edge(branch) ==
              match Slot(e, i, branch)
              case To(j) => if j < |bs| then bs[j] else null
              case Out(v) => if v then accept else reject
    {
      SlotsGoForward(e, i, branch);
    }
  }

  datatype Result = Returned(k: u32) | Rejected(why: Stop) | Lost

  /** Running the graph from a block, entering at most `fuel` blocks of bs. */
  ghost function Run(b: Block?, bs: seq<Block>, r: Regs, p: Packet, fuel: nat): Result
    reads bs`jt, bs`jf, bs`stmts, bs`s
    decreases fuel
  {
    if fuel == 0 || b == null || b !in bs then Lost
    else
      match ExecAll(b.stmts, r, p)
      case Halt(why) => Rejected(why)
      case Next(r') =>
        match b.s
        case Ret(k) => Returned(k)
        case Jmp(br) => Run(if Taken(br, r') then b.jt else b.jf, bs, r', p, fuel - 1)
  }

  function ResultOf(v: Verdict, snaplen: u32): Result {
    match v case Answer(value, _) => Returned(if value then snaplen else 0) case Abort(why) => Rejected(why)
  }

  lemma {:induction false} RunIsWalk(bs: seq<Block>, e: Expr, accept: Block, reject: Block, all: seq<Block>,
                                     snaplen: u32, i: nat, r: Regs, p: Packet, fuel: nat)
    requires Compiled(bs, e, accept, reject, snaplen) && i < |bs|
    requires (forall b <- bs :: b in all) && accept in all && reject in all
    requires fuel > |bs| - i
    ensures Run(bs[i], all, r, p, fuel) == ResultOf(Walk(e, i, r, p), snaplen)
    decreases |bs| - i
  {
    hide Wires;
    match EvalTest(LeafAt(e, i), r, p) {
      case Abort(_) =>
      case Answer(v, r') =>
        SlotsGoForward(e, i, v);
        assert Wires(bs)[i].Edge(v) == match Slot(e, i, v)
                                       case To(j) => if j < |bs| then bs[j] else null
                                       case Out(value) => if value then accept else reject;
        match Slot(e, i, v) {
          case Out(_) =>
          case To(j) => RunIsWalk(bs, e, accept, reject, all, snaplen, j, r', p, fuel - 1);
        }
    }
  }

  /** Compiler correctness for the connectives: the finished graph returns the snapshot length exactly when
      left-to-right evaluation is true, returns 0 when it is false, and rejects at once when a test aborts;
      it enters no more blocks than there are. */
  lemma GraphDecidesExpression(bs: seq<Block>, e: Expr, accept: Block, reject: Block,
                               snaplen: u32, r: Regs, p: Packet)
    requires Compiled(bs, e, accept, reject, snaplen)
    ensures Run(bs[0], bs + [accept, reject], r, p, |bs| + 2) == ResultOf(Eval(e, r, p), snaplen)
  {
    hide Run, Walk, Eval, Wires, Finished, Labelled;
    RunIsWalk(bs, e, accept, reject, bs + [accept, reject], snaplen, 0, r, p, |bs| + 2);
    WalkIsEval(e, r, p);
  }
}
