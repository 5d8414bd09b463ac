/** Compiler state, the scratch-register allocator, and the code that loads and compares header fields. */
module Codegen {
  import opened Words
  import opened Bpf
  import opened Conditions
  import opened BlockGraph

  /** Where a header starts: a constant, plus the value a register will hold when the filter runs. */
  datatype AbsOffset = AbsOffset(constant: u32, variable: bool, reg: int)

  datatype Header = LinkHdr | LinkPl | LinkType

  /** What an offset is relative to. */
  datatype OffRel = FromPacket | FromLinkHdr | FromLinkType | FromLlc | FromLinkPl | FromTranIpv4

  function FreeCount(used: seq<bool>): nat {
    if used == [] then 0 else (if used[0] then 0 else 1) + FreeCount(used[1..])
  }

  lemma {:induction false} FreeCountUpdate(used: seq<bool>, i: nat, b: bool)
    requires i < |used|
    ensures FreeCount(used[i := b]) ==
            FreeCount(used) + (if used[i] then 1 else 0) - (if b then 1 else 0)
  {
    if i == 0 {
      assert used[i := b][1..] == used[1..];
    } else {
      assert used[i := b][1..] == used[1..][i - 1 := b];
      FreeCountUpdate(used[1..], i - 1, b);
    }
  }

  lemma {:induction false} NoneFree(used: seq<bool>)
    ensures FreeCount(used) == 0 <==> forall i :: 0 <= i < |used| ==> used[i]
  {
    if used != [] {
      NoneFree(used[1..]);
      assert forall i :: 0 < i < |used| ==> used[i] == used[1..][i - 1];
    }
  }

  class CompilerState {
    const regused: array<bool>
    var curreg: nat
    var offLinkHdr: AbsOffset
    var offLinkPl: AbsOffset
    var offLinkType: AbsOffset
    var offNl: u32

    ghost predicate Valid()
      reads this, regused
    {
      && regused.Length == MEMWORDS && curreg < MEMWORDS
      && RegOk(offLinkHdr) && RegOk(offLinkPl) && RegOk(offLinkType)
    }

    ghost predicate RegOk(off: AbsOffset)
      requires regused.Length == MEMWORDS
      reads regused
    {
      off.reg == -1 || (off.variable && 0 <= off.reg < MEMWORDS && regused[off.reg])
    }

    /** The registers in use. */
    ghost function Used(): set<nat>
      reads regused
    {
      set i: nat | i < regused.Length && regused[i]
    }

    ghost function Free(): nat
      reads regused
    {
      FreeCount(regused[..])
    }

    /** init_linktype for Ethernet. */
    constructor Ethernet()
      ensures Valid() && IsEthernet() && fresh(this) && fresh(regused)
      ensures Used() == {} && Free() == MEMWORDS
    {
      regused := new bool[MEMWORDS](i => false);
      curreg := 0;
      offLinkHdr := AbsOffset(0, false, -1);
      offLinkType := AbsOffset(12, false, -1);
      offLinkPl := AbsOffset(14, false, -1);
      offNl := 0;
      new;
      AllFree(regused[..]);
    }

    /** init_linktype for plain 802.11: the payload starts after a header of varying length. */
    constructor Wlan()
      ensures Valid() && IsWlan() && fresh(this) && fresh(regused)
    {
      regused := new bool[MEMWORDS](i => false);
      curreg := 0;
      offLinkHdr := AbsOffset(0, false, -1);
      offLinkType := AbsOffset(24, false, -1);
      offLinkPl := AbsOffset(0, true, -1);
      offNl := 8;
    }

    ghost predicate IsEthernet()
      reads `offLinkHdr, `offLinkPl, `offLinkType, `offNl
    {
      && offLinkHdr == AbsOffset(0, false, -1)
      && offLinkType == AbsOffset(12, false, -1)
      && offLinkPl == AbsOffset(14, false, -1)
      && offNl == 0
    }

    ghost predicate IsWlan()
      reads `offLinkHdr, `offLinkPl, `offLinkType, `offNl
    {
      && offLinkHdr == AbsOffset(0, false, -1)
      && offLinkType == AbsOffset(24, false, -1)
      && offLinkPl.constant == 0 && offLinkPl.variable
      && offNl == 8
    }

    /** The next free register, searching cyclically from the last one handed out; None when all are taken. */
    method AllocReg() returns (reg: int)
      requires Valid()
      modifies `curreg, regused
      ensures Valid()
      ensures reg == -1 <==> old(Free()) == 0
      ensures reg == -1 ==> Used() == old(Used())
      ensures reg != -1 ==> curreg == reg && FirstFrom(old(curreg), reg, old(Used()))
      ensures reg != -1 ==>
                && 0 <= reg < MEMWORDS && reg !in old(Used()) && Used() == old(Used()) + {reg}
                && Free() == old(Free()) - 1
    {
      var n := MEMWORDS;
      ghost var start := curreg;
      while n > 0
        invariant 0 <= n <= MEMWORDS && curreg == (start + (MEMWORDS - n)) % MEMWORDS
        invariant forall t :: 0 <= t < MEMWORDS - n ==> regused[Cyclic(start, t)]
        invariant regused[..] == old(regused[..])
      {
        n := n - 1;
        if regused[curreg] {
          curreg := (curreg + 1) % MEMWORDS;
        } else {
          regused[curreg] := true;
          FreeCountUpdate(old(regused[..]), curreg, true);
          assert regused[..] == old(regused[..])[curreg := true];
          NoneFree(old(regused[..]));
          assert curreg == Cyclic(start, MEMWORDS - 1 - n);
          return curreg;
        }
      }
      forall i | 0 <= i < MEMWORDS ensures regused[i] {
        var t := if i >= start then i - start else i - start + MEMWORDS;
        assert Cyclic(start, t) == i;
      }
      NoneFree(regused[..]);
      return -1;
    }

    method FreeReg(reg: nat)
      requires Valid() && reg in Used()
      requires reg != offLinkHdr.reg && reg != offLinkPl.reg && reg != offLinkType.reg
      modifies regused
      ensures Valid() && Used() == old(Used()) - {reg} && Free() == old(Free()) + 1
    {
      FreeCountUpdate(regused[..], reg, false);
      ghost var before := regused[..];
      regused[reg] := false;
      assert regused[..] == before[reg := false];
    }

    /** What a load may change: the state, for its offset register, or nothing at a constant offset. */
    ghost function Touched(variable: bool): set<object> {
      if variable then {this, regused} else {}
    }

    function Off(h: Header): AbsOffset
      reads `offLinkHdr, `offLinkPl, `offLinkType
    {
      match h case LinkHdr => offLinkHdr case LinkPl => offLinkPl case LinkType => offLinkType
    }

    /** Code that puts the variable part of an offset into X, allocating its register on first use;
        none for a constant offset. */
    method GenAbsOffsetVarpart(h: Header) returns (ok: bool, s: seq<Stmt>)
      requires Valid()
      modifies Touched(Off(h).variable)
      ensures Valid()
      ensures !old(Off(h)).variable ==> ok && s == []
      ensures old(Off(h)).variable && !ok ==> old(Off(h)).reg == -1 && old(Free()) == 0
      ensures old(Off(h)).variable && ok ==>
                && 0 <= Off(h).reg < MEMWORDS && Off(h).reg in Used() && s == [LdxMem(Off(h).reg)]
                && Off(h) == old(Off(h)).(reg := Off(h).reg)
                && (old(Off(h)).reg != -1 ==> unchanged(this) && unchanged(regused))
                && (old(Off(h)).reg == -1 ==> Off(h).reg !in old(Used()))
      ensures forall g :: g != h ==> Off(g) == old(Off(g))
      ensures offNl == old(offNl)
    {
      ok, s := true, [];
      var off := Off(h);
      if off.variable {
        if off.reg == -1 {
          var reg := AllocReg();
          if reg == -1 {
            return false, [];
          }
          off := off.(reg := reg);
          match h {
            case LinkHdr => offLinkHdr := off;
            case LinkPl => offLinkPl := off;
            case LinkType => offLinkType := off;
          }
        }
        s := [LdxMem(off.reg)];
      }
    }

    /** A load at an offset from a header. */
    method GenLoadAbsOffsetRel(h: Header, offset: u32, size: Size) returns (ok: bool, s: seq<Stmt>)
      requires Valid()
      modifies Touched(Off(h).variable)
      ensures Valid()
      ensures !old(Off(h)).variable ==> ok
      ensures ok ==> s == LoadCode(Off(h), offset, size) && Off(h) == old(Off(h)).(reg := Off(h).reg)
      ensures ok && Off(h).variable ==> 0 <= Off(h).reg < MEMWORDS && Off(h).reg in Used()
      ensures forall g :: g != h ==> Off(g) == old(Off(g))
      ensures offNl == old(offNl)
    {
      ok, s := GenAbsOffsetVarpart(h);
      if !ok { return; }
      if s != [] {
        s := s + [LdInd(size, Wrap(Off(h).constant + offset))];
      } else {
        s := [LdAbs(size, Wrap(Off(h).constant + offset))];
      }
    }

    /** Code that puts the IPv4 header length plus the variable part of the payload offset into X. */
    method GenLoadXIphdrlen() returns (ok: bool, s: seq<Stmt>)
      requires Valid()
      modifies Touched(offLinkPl.variable)
      ensures Valid()
      ensures !old(offLinkPl).variable ==> ok
      ensures ok ==> s == IphdrCode(offLinkPl, offNl) && offLinkPl == old(offLinkPl).(reg := offLinkPl.reg)
      ensures ok && offLinkPl.variable ==> 0 <= offLinkPl.reg < MEMWORDS && offLinkPl.reg in Used()
      ensures offLinkHdr == old(offLinkHdr) && offLinkType == old(offLinkType) && offNl == old(offNl)
    {
      assert forall g ::
        Off(g) == match g case LinkHdr => offLinkHdr case LinkPl => offLinkPl case LinkType => offLinkType;
      ok, s := GenAbsOffsetVarpart(LinkPl);
      assert Off(LinkHdr) == offLinkHdr && Off(LinkPl) == offLinkPl && Off(LinkType) == offLinkType;
      if !ok { return; }
      var k := Wrap(offLinkPl.constant + offNl);
      if s != [] {
        s := s + [LdInd(Byte, k)];
        s := s + [AluK(BitAnd, 0xf)];
        s := s + [AluK(Lsh, 2)];
        s := s + [AluX(Add)];
        s := s + [Tax];
      } else {
        s := [LdxMsh(k)];
      }
    }

    /** gen_load_a: an item of the given size at an offset relative to a header. */
    method GenLoadA(rel: OffRel, offset: u32, size: Size) returns (ok: bool, s: seq<Stmt>)
      requires Valid()
      modifies Touched(VariableAt(offLinkHdr, offLinkPl, offLinkType, rel))
      ensures Valid()
      ensures !VariableAt(old(offLinkHdr), old(offLinkPl), old(offLinkType), rel) ==> ok
      ensures ok ==> s == LoadACode(offLinkHdr, offLinkPl, offLinkType, offNl, rel, offset, size)
      ensures offNl == old(offNl)
    {
      ok, s := true, [];
      match rel {
        case FromPacket => s := [LdAbs(size, offset)];
        case FromLinkHdr => ok, s := GenLoadAbsOffsetRel(LinkHdr, offset, size);
        case FromLinkType => ok, s := GenLoadAbsOffsetRel(LinkType, offset, size);
        case FromLlc => ok, s := GenLoadAbsOffsetRel(LinkPl, offset, size);
        case FromLinkPl => ok, s := GenLoadAbsOffsetRel(LinkPl, Wrap(offNl + offset), size);
        case FromTranIpv4 =>
          ok, s := GenLoadXIphdrlen();
          if ok {
            s := s + [LdInd(size, Wrap(offLinkPl.constant + offNl + offset))];
          }
      }
    }

    /** gen_ncmp: mask the field and compare it with v; `reverse` asks for the opposite of an ordering. */
    method GenNcmp(rel: OffRel, offset: u32, size: Size, mask: u32, cond: Cond, reverse: bool, v: u32)
      returns (b: Block?)
      requires Valid()
      modifies Touched(VariableAt(offLinkHdr, offLinkPl, offLinkType, rel))
      ensures Valid()
      ensures !VariableAt(old(offLinkHdr), old(offLinkPl), old(offLinkType), rel) ==> b != null
      ensures b != null ==> b.Open() && fresh(b) && b.leaves == [b]
      ensures b != null ==>
        b.expr == CompareExpr(LoadACode(offLinkHdr, offLinkPl, offLinkType, offNl, rel, offset, size),
                              mask, cond, reverse, v)
    {
      hide Shape;
      var ok, s := GenLoadA(rel, offset, size);
      if !ok { return null; }
      if mask != 0xffffffff {
        s := s + [AluK(BitAnd, mask)];
      }
      var block := new Block.Cond(s, ByK(cond, v));
      if reverse && (cond == Gt || cond == Ge) {
        GenNot(block);
      }
      b := block;
    }
  }

  function IphdrCode(pl: AbsOffset, nl: u32): seq<Stmt> {
    var k := Wrap(pl.constant + nl);
    if pl.variable && 0 <= pl.reg then
      [LdxMem(pl.reg % WORD), LdInd(Byte, k), AluK(BitAnd, 0xf), AluK(Lsh, 2), AluX(Add), Tax]
    else [LdxMsh(k)]
  }

  predicate VariableAt(hdr: AbsOffset, pl: AbsOffset, ty: AbsOffset, rel: OffRel) {
    match rel
    case FromPacket => false
    case FromLinkHdr => hdr.variable
    case FromLinkType => ty.variable
    case _ => pl.variable
  }

  /** The statements gen_load_a produces under a given layout. */
  function LoadACode(hdr: AbsOffset, pl: AbsOffset, ty: AbsOffset, nl: u32,
                     rel: OffRel, offset: u32, size: Size): seq<Stmt> {
    match rel
    case FromPacket => [LdAbs(size, offset)]
    case FromLinkHdr => LoadCode(hdr, offset, size)
    case FromLinkType => LoadCode(ty, offset, size)
    case FromLlc => LoadCode(pl, offset, size)
    case FromLinkPl => LoadCode(pl, Wrap(nl + offset), size)
    case FromTranIpv4 => IphdrCode(pl, nl) + [LdInd(size, Wrap(pl.constant + nl + offset))]
  }

  function CompareExpr(load: seq<Stmt>, mask: u32, cond: Cond, reverse: bool, v: u32): Expr {
    var t := Leaf(Test(load + (if mask == 0xffffffff then [] else [AluK(BitAnd, mask)]), ByK(cond, v)));
    if reverse && (cond == Gt || cond == Ge) then Not(t) else t
  }

  /** The statements of a header-relative load. */
  function LoadCode(off: AbsOffset, offset: u32, size: Size): seq<Stmt> {
    if off.variable && 0 <= off.reg then [LdxMem(off.reg % WORD), LdInd(size, Wrap(off.constant + offset))]
    else [LdAbs(size, Wrap(off.constant + offset))]
  }

  /** From start on, and from 0 again behind the last, every register before reg is in use. */
  ghost predicate FirstFrom(start: nat, reg: nat, used: set<nat>) {
    exists d: nat :: d < MEMWORDS && Cyclic(start, d) == reg && forall t: nat | t < d :: Cyclic(start, t) in used
  }

  function Cyclic(start: nat, t: nat): (i: nat)
    ensures i < MEMWORDS
  {
    (start + t) % MEMWORDS
  }

  lemma {:induction false} AllFree(used: seq<bool>)
    requires forall i :: 0 <= i < |used| ==> !used[i]
    ensures FreeCount(used) == |used|
  {
    if used != [] {
      AllFree(used[1..]);
    }
  }
}
