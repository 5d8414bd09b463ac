/** A header at a constant offset and one whose offset is in a register: the two shapes of code read the same field. */
module OffsetShapes {
  import opened Words
  import opened Bpf
  import opened Codegen

  /** Section 3.1 of RFC 791: the low four bits of the first octet count 32-bit words of header. */
  function HeaderLength(first: byte): nat {
    4 * (first % 16)
  }

  const MAX_HEADER := 60

  /** In a run that enters with registers r, the offset is off by value beyond its constant. */
  predicate Carries(off: AbsOffset, r: Regs, value: u32) {
    if off.variable then 0 <= off.reg < MEMWORDS && r.mem[off.reg] == value else value == 0
  }

  /** The offset with its variable part made constant. */
  function Raised(off: AbsOffset, value: u32): AbsOffset
    requires off.constant + value < WORD
  {
    AbsOffset(off.constant + value, false, -1)
  }

  /** The same field ends up in A, or the same check fails. */
  predicate SameLoad(e: Effect, f: Effect) {
    if e.Next? then f.Next? && e.regs.a == f.regs.a && e.regs.mem == f.regs.mem else f == e
  }

  lemma ExecTwo(s: Stmt, rest: seq<Stmt>, r: Regs, p: Packet)
    ensures Exec(s, r, p).Next? ==> ExecAll([s] + rest, r, p) == ExecAll(rest, Exec(s, r, p).regs, p)
    ensures Exec(s, r, p).Halt? ==> ExecAll([s] + rest, r, p) == Exec(s, r, p)
  {
    assert ([s] + rest)[1..] == rest;
  }

  /** The constant shape's sum wraps around where the other's does not, and the wrapped field is in the packet. */
  predicate WrapsIntoPacket(off: AbsOffset, value: u32, offset: u32, size: Size, p: Packet) {
    && off.constant + offset < WORD <= off.constant + offset + value
    && off.constant + offset + value - WORD + Width(size) <= |p.data|
  }

  /** Header-relative loads: exactly when the two shapes agree. */
  lemma LoadShapesAgree(off: AbsOffset, value: u32, offset: u32, size: Size, r: Regs, p: Packet)
    requires Carries(off, r, value) && off.constant + value < WORD
    ensures
      SameLoad(ExecAll(LoadCode(off, offset, size), r, p), ExecAll(LoadCode(Raised(off, value), offset, size), r, p))
      <==> !WrapsIntoPacket(off, value, offset, size, p)
  {
    hide ExecAll, Field;
    var k, k' := Wrap(off.constant + offset), Wrap(off.constant + value + offset);
    WrapOnce(off.constant + offset);
    WrapOnce(off.constant + value + offset);
    ExecOne(LdAbs(size, k'), r, p);
    if off.variable {
      var r' := r.(x := value);
      assert [LdxMem(off.reg), LdInd(size, k)] == [LdxMem(off.reg)] + [LdInd(size, k)];
      ExecTwo(LdxMem(off.reg), [LdInd(size, k)], r, p);
      ExecOne(LdInd(size, k), r', p);
    }
  }

  lemma WrapOnce(n: nat)
    requires n < 2 * WORD
    ensures Wrap(n) == if n < WORD then n else n - WORD
  {
    if n < WORD { ModUnique(n, WORD, 0, n); } else { ModUnique(n, WORD, 1, n - WORD); }
  }

  /** A is loaded from this place, and the memory kept; or the load rejects. */
  predicate ReadsFrom(e: Effect, r: Regs, p: Packet, at: nat, size: Size) {
    if at + Width(size) <= |p.data| then e.Next? && e.regs.a == Field(p.data, at, size) && e.regs.mem == r.mem
    else e == Halt(OutsidePacket)
  }

  lemma HeaderReads(off: AbsOffset, value: u32, offset: u32, size: Size, r: Regs, p: Packet)
    requires Carries(off, r, value)
    ensures ReadsFrom(ExecAll(LoadCode(off, offset, size), r, p), r, p, value + Wrap(off.constant + offset), size)
  {
    hide ExecAll, Field, Wrap;
    var k := Wrap(off.constant + offset);
    if off.variable {
      WrapOnce(off.reg);
      assert [LdxMem(off.reg), LdInd(size, k)] == [LdxMem(off.reg)] + [LdInd(size, k)];
      ExecTwo(LdxMem(off.reg), [LdInd(size, k)], r, p);
      ExecOne(LdInd(size, k), r.(x := value), p);
    } else {
      ExecOne(LdAbs(size, k), r, p);
    }
  }

  /**
   * Where loads look: relative to the packet, the link header or the link type, from there on; to
   * the LLC header, behind the link header; to the network layer, so many octets nl after that.
   * The constant parts are added modulo 2^32, the variable part without wrapping.
   */
  lemma LayerReads(hdr: AbsOffset, pl: AbsOffset, ty: AbsOffset, nl: u32, offset: u32, size: Size,
                   vh: u32, vp: u32, vt: u32, r: Regs, p: Packet)
    requires Carries(hdr, r, vh) && Carries(pl, r, vp) && Carries(ty, r, vt)
    ensures ReadsFrom(ExecAll(LoadACode(hdr, pl, ty, nl, FromPacket, offset, size), r, p), r, p, offset, size)
    ensures ReadsFrom(ExecAll(LoadACode(hdr, pl, ty, nl, FromLinkHdr, offset, size), r, p), r, p,
                      vh + (hdr.constant + offset) % 0x1_0000_0000, size)
    ensures ReadsFrom(ExecAll(LoadACode(hdr, pl, ty, nl, FromLinkType, offset, size), r, p), r, p,
                      vt + (ty.constant + offset) % 0x1_0000_0000, size)
    ensures ReadsFrom(ExecAll(LoadACode(hdr, pl, ty, nl, FromLlc, offset, size), r, p), r, p,
                      vp + (pl.constant + offset) % 0x1_0000_0000, size)
    ensures ReadsFrom(ExecAll(LoadACode(hdr, pl, ty, nl, FromLinkPl, offset, size), r, p), r, p,
                      vp + (pl.constant + nl + offset) % 0x1_0000_0000, size)
  {
    ExecOne(LdAbs(size, offset), r, p);
    HeaderReads(hdr, vh, offset, size, r, p);
    HeaderReads(ty, vt, offset, size, r, p);
    HeaderReads(pl, vp, offset, size, r, p);
    HeaderReads(pl, vp, Wrap(nl + offset), size, r, p);
    WrapTwice(pl.constant, nl + offset);
    hide ExecAll, LoadCode, ReadsFrom;
  }

  lemma WrapTwice(a: nat, b: nat)
    ensures Wrap(a + Wrap(b)) == Wrap(a + b)
  {
    hide Wrap;
    WrapIs(b);
    WrapIs(a + Wrap(b));
    WrapIsIn(a + b, (a + Wrap(b)) / WORD + b / WORD, Wrap(a + Wrap(b)));
  }

  lemma WrapIsIn(n: nat, q: int, w: u32)
    requires n == WORD * q + w
    ensures Wrap(n) == w
  {
    ModUnique(n, WORD, q, w);
  }

  /** On 802.11 the network layer is read eight octets, an LLC and a SNAP header, behind the link header. */
  lemma WlanNetworkLayer(hdr: AbsOffset, pl: AbsOffset, ty: AbsOffset, offset: u32, size: Size, value: u32, r: Regs,
                         p: Packet)
    requires pl.constant == 0 && pl.variable && Carries(pl, r, value) && offset < 0x1_0000
    ensures ReadsFrom(ExecAll(LoadACode(hdr, pl, ty, 8, FromLinkPl, offset, size), r, p), r, p,
                      value + 8 + offset, size)
    ensures ReadsFrom(ExecAll(LoadACode(hdr, pl, ty, 8, FromLlc, offset, size), r, p), r, p, value + offset, size)
  {
    HeaderReads(pl, value, 8 + offset, size, r, p);
    HeaderReads(pl, value, offset, size, r, p);
    hide ExecAll, LoadCode, ReadsFrom;
  }

  /** Where the code for this shape looks for the IPv4 header. */
  function HeaderAt(pl: AbsOffset, nl: u32, value: u32): nat {
    value + Wrap(pl.constant + nl)
  }

  /** The code leaves in X the end of the IPv4 header, as far beyond the payload's constant as it is; or it rejects. */
  lemma HeaderLengthCode(pl: AbsOffset, nl: u32, value: u32, r: Regs, p: Packet)
    requires Carries(pl, r, value)
    ensures var at := HeaderAt(pl, nl, value);
      var e := ExecAll(IphdrCode(pl, nl), r, p);
      if at < |p.data| then e.Next? && e.regs.x == Wrap(value + HeaderLength(p.data[at])) && e.regs.mem == r.mem
      else e == Halt(OutsidePacket)
  {
    hide ExecAll, Wrap;
    var k, at := Wrap(pl.constant + nl), HeaderAt(pl, nl, value);
    if pl.variable {
      assert IphdrCode(pl, nl) == [LdxMem(pl.reg)] + ([LdInd(Byte, k)] + LengthCode()) by { WrapOnce(pl.reg); }
      ExecTwo(LdxMem(pl.reg), [LdInd(Byte, k)] + LengthCode(), r, p);
      ExecTwo(LdInd(Byte, k), LengthCode(), r.(x := value), p);
      if at < |p.data| {
        LengthCodeAdds(r.(x := value, a := p.data[at]), p);
      }
    } else {
      ExecOne(LdxMsh(k), r, p);
      if at < |p.data| {
        WrapOnce(HeaderLength(p.data[at]));
      }
    }
  }

  /** From the first octet of the header in A to the end of the header in X. */
  function LengthCode(): seq<Stmt> {
    [AluK(BitAnd, 0xf)] + ([AluK(Lsh, 2)] + ([AluX(Add)] + [Tax]))
  }

  lemma TimesFour(n: u32)
    requires n < 16
    ensures Alu(Lsh, n, 2) == 4 * n
  {
    assert Pow2(2) == 4;
  }

  lemma Sum(a: u32, x: u32)
    ensures Alu(Add, a, x) == Wrap(x + a)
  {
  }

  lemma LengthCodeAdds(r: Regs, p: Packet)
    requires r.a < 0x100
    ensures var e := ExecAll(LengthCode(), r, p);
      e.Next? && e.regs.x == Wrap(r.x + HeaderLength(r.a)) && e.regs.mem == r.mem
  {
    var length := HeaderLength(r.a);
    LowNibble(r.a);
    TimesFour(r.a % 16);
    Sum(length, r.x);
    assert Alu(BitAnd, r.a, 0xf) == r.a % 16;
    hide ExecAll, And32, Alu, Wrap;
    ExecTwo(AluK(BitAnd, 0xf), [AluK(Lsh, 2)] + ([AluX(Add)] + [Tax]), r, p);
    ExecTwo(AluK(Lsh, 2), [AluX(Add)] + [Tax], r.(a := r.a % 16), p);
    ExecTwo(AluX(Add), [Tax], r.(a := length), p);
    ExecOne(Tax, r.(a := Wrap(r.x + length)), p);
  }

  /** Where the code for this shape looks for a transport-layer field, behind a header with this first octet. */
  function FieldAt(pl: AbsOffset, nl: u32, value: u32, offset: u32, first: byte): nat {
    Wrap(value + HeaderLength(first)) + Wrap(pl.constant + nl + offset)
  }

  /** The field's place in the packet; -1 if the header or the field is not captured. */
  function Place(pl: AbsOffset, nl: u32, value: u32, offset: u32, size: Size, data: seq<byte>): int {
    var h := HeaderAt(pl, nl, value);
    if h >= |data| then -1
    else
      var f := FieldAt(pl, nl, value, offset, data[h]);
      if f + Width(size) <= |data| then f else -1
  }

  /** The code reads the field at its place, or rejects if it has none. */
  lemma TransportReads(pl: AbsOffset, nl: u32, value: u32, offset: u32, size: Size, r: Regs, p: Packet)
    requires Carries(pl, r, value)
    ensures var hdr := AbsOffset(0, false, -1);
      var e := ExecAll(LoadACode(hdr, pl, hdr, nl, FromTranIpv4, offset, size), r, p);
      var at := Place(pl, nl, value, offset, size, p.data);
      if at >= 0 then
        at + Width(size) <= |p.data| && e.Next? && e.regs.a == Field(p.data, at, size) && e.regs.mem == r.mem
      else e == Halt(OutsidePacket)
  {
    hide ExecAll, IphdrCode, Wrap, Field;
    var k := Wrap(pl.constant + nl + offset);
    HeaderLengthCode(pl, nl, value, r, p);
    ExecAllAppend(IphdrCode(pl, nl), [LdInd(size, k)], r, p);
    if HeaderAt(pl, nl, value) < |p.data| {
      ExecOne(LdInd(size, k), ExecAll(IphdrCode(pl, nl), r, p).regs, p);
    }
  }

  /** Two captured places are the same. */
  lemma OnePlace(pl: AbsOffset, nl: u32, value: u32, offset: u32, size: Size, p: Packet)
    requires pl.constant + value < WORD
    requires Place(pl, nl, value, offset, size, p.data) >= 0
    requires Place(Raised(pl, value), nl, 0, offset, size, p.data) >= 0
    ensures Place(pl, nl, value, offset, size, p.data) == Place(Raised(pl, value), nl, 0, offset, size, p.data)
  {
    hide Wrap;
    Congruent(value, pl.constant + nl, 0);
    var length := HeaderLength(p.data[HeaderAt(pl, nl, value)]);
    Congruent(value, pl.constant + nl + offset, length);
    WrapOnce(length);
    WrapOnce(value);
    WrapOnce(0);
  }

  /** The two sums agree modulo 2^32. */
  lemma Congruent(value: u32, k: nat, length: nat)
    requires length <= MAX_HEADER
    ensures var a, b := Wrap(value + length) + Wrap(k), length + Wrap(k + value);
      a == b || a >= b + WORD || b >= a + WORD
  {
    hide Wrap;
    WrapIs(value + length);
    WrapIs(k);
    WrapIs(k + value);
    var q := (k + value) / WORD - (value + length) / WORD - k / WORD;
    var a, b := Wrap(value + length) + Wrap(k), length + Wrap(k + value);
    assert a - b == WORD * q;
    MultipleIsFar(WORD, q);
  }

  lemma WrapIs(n: nat)
    ensures n == WORD * (n / WORD) + Wrap(n)
  {
  }

  /** Either the sum for the header wraps around in the constant shape alone, and the field behind the wrapped header is
      in the packet; or the sums for the field wrap differently, and the lower one is in the packet. */
  predicate TransportWraps(pl: AbsOffset, nl: u32, value: u32, offset: u32, size: Size, p: Packet)
    requires pl.constant + value < WORD
  {
    var h := HeaderAt(Raised(pl, value), nl, 0);
    && h < |p.data|
    && var f, f' := FieldAt(pl, nl, value, offset, p.data[h]), FieldAt(Raised(pl, value), nl, 0, offset, p.data[h]);
    if pl.constant + nl < WORD <= pl.constant + nl + value then f' + Width(size) <= |p.data|
    else f != f' && (if f < f' then f else f') + Width(size) <= |p.data|
  }

  lemma WrapsIsOneMisses(pl: AbsOffset, nl: u32, value: u32, offset: u32, size: Size, p: Packet)
    requires pl.constant + value < WORD
    ensures TransportWraps(pl, nl, value, offset, size, p) <==> OneMisses(pl, nl, value, offset, size, p)
  {
    hide Wrap;
    WrapOnce(pl.constant + nl);
    WrapOnce(pl.constant + value + nl);
    WrapOnce(0);
    var h := HeaderAt(Raised(pl, value), nl, 0);
    if h < |p.data| {
      var length := HeaderLength(p.data[h]);
      WrapOnce(length);
      Congruent(value, pl.constant + nl + offset, length);
    }
  }

  /** Exactly one of the two shapes finds its field captured. */
  predicate OneMisses(pl: AbsOffset, nl: u32, value: u32, offset: u32, size: Size, p: Packet)
    requires pl.constant + value < WORD
  {
    (Place(pl, nl, value, offset, size, p.data) >= 0) != (Place(Raised(pl, value), nl, 0, offset, size, p.data) >= 0)
  }

  /** Loads relative to the transport header over IPv4: exactly when the two shapes agree. */
  lemma TransportShapesAgree(pl: AbsOffset, nl: u32, value: u32, offset: u32, size: Size, r: Regs, p: Packet)
    requires Carries(pl, r, value) && pl.constant + value < WORD
    ensures var hdr := AbsOffset(0, false, -1);
      SameLoad(ExecAll(LoadACode(hdr, pl, hdr, nl, FromTranIpv4, offset, size), r, p),
               ExecAll(LoadACode(hdr, Raised(pl, value), hdr, nl, FromTranIpv4, offset, size), r, p))
      <==> !TransportWraps(pl, nl, value, offset, size, p)
  {
    hide ExecAll, LoadACode, Field, Place, TransportWraps;
    WrapsIsOneMisses(pl, nl, value, offset, size, p);
    TransportReads(pl, nl, value, offset, size, r, p);
    TransportReads(Raised(pl, value), nl, 0, offset, size, r, p);
    if Place(pl, nl, value, offset, size, p.data) >= 0 && Place(Raised(pl, value), nl, 0, offset, size, p.data) >= 0 {
      OnePlace(pl, nl, value, offset, size, p);
    }
  }

  /** So they agree wherever no sum wraps. */
  lemma TransportShapesAgreeUnwrapped(pl: AbsOffset, nl: u32, value: u32, offset: u32, size: Size, p: Packet)
    requires pl.constant + nl + offset + value < WORD && value + MAX_HEADER < WORD
    ensures !TransportWraps(pl, nl, value, offset, size, p)
  {
    hide Wrap;
    WrapOnce(pl.constant + nl);
    WrapOnce(pl.constant + value + nl);
    WrapOnce(pl.constant + nl + offset);
    WrapOnce(pl.constant + value + nl + offset);
    var h := HeaderAt(pl, nl, value);
    if h < |p.data| {
      WrapOnce(value + HeaderLength(p.data[h]));
      WrapOnce(HeaderLength(p.data[h]));
    }
  }

  /** The bound on sums matters: past it the constant shape would wrap around and the other would not. */
  lemma WrappedShapesDiffer()
    ensures exists off: AbsOffset, value: u32, offset: u32, r: Regs, p: Packet ::
      Carries(off, r, value) && off.constant + value < WORD && off.constant + offset + value >= WORD
      && !SameLoad(ExecAll(LoadCode(off, offset, Byte), r, p),
                   ExecAll(LoadCode(Raised(off, value), offset, Byte), r, p))
  {
    var mem: Scratch := seq(MEMWORDS, i => 1);
    var off, r, p := AbsOffset(0, true, 0), Regs(0, 0, mem), RawPacket([7], 1);
    var offset: u32 := 0xffff_ffff;
    assert Carries(off, r, 1);
    LoadShapesAgree(off, 1, offset, Byte, r, p);
  }
}
