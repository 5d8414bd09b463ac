/** What the generated loads and comparisons mean, for constant and for variable header offsets. */
module FieldTests {
  import opened Words
  import opened Bpf
  import opened Conditions
  import opened BlockGraph
  import opened Codegen

  // ---- One comparison ----------------------------------------------------------

  /** The outcome of comparing the masked field at an absolute offset; reading outside the packet aborts. */
  function FieldOutcome(p: Packet, off: nat, size: Size, mask: u32, cond: Cond, negated: bool, v: u32): (o: Outcome) {
    if off + Width(size) <= |p.data| then Value(Holds(cond, And32(Field(p.data, off, size), mask), v) != negated)
    else Reject(OutsidePacket)
  }

  /** A verdict without the registers. */
  datatype Outcome = Value(value: bool) | Reject(why: Stop)

  function OutcomeOf(v: Verdict): Outcome {
    match v case Answer(value, _) => Value(value) case Abort(why) => Reject(why)
  }

  lemma AndAllOnes(x: u32)
    ensures And32(x, 0xffffffff) == x
  {
    Pow2At32();
    AndLowMask(x, 32);
    ModUnique(x, WORD, 0, x);
  }

  /** A comparison on a constant offset means what FieldOutcome says, whatever the registers hold,
      and leaves the scratch memory alone. */
  lemma CompareMeaning(k: u32, size: Size, mask: u32, cond: Cond, reverse: bool, v: u32, r: Regs, p: Packet)
    ensures var e := CompareExpr([LdAbs(size, k)], mask, cond, reverse, v);
            && OutcomeOf(Eval(e, r, p)) ==
               FieldOutcome(p, k, size, mask, cond, reverse && (cond == Gt || cond == Ge), v)
            && (Eval(e, r, p).Answer? ==> Eval(e, r, p).regs.mem == r.mem)
  {
    var rest := if mask == 0xffffffff then [] else [AluK(BitAnd, mask)];
    ExecAllAppend([LdAbs(size, k)], rest, r, p);
    ExecOne(LdAbs(size, k), r, p);
    if k + Width(size) <= |p.data| {
      var r' := r.(a := Field(p.data, k, size));
      AndAllOnes(r'.a);
      ExecOne(AluK(BitAnd, mask), r', p);
    }
  }

  // ---- gen_bcmp ------------------------------------------------------------------

  /** e accepts exactly when the bytes at an absolute offset are there and equal v; it aborts when they are not there.
      It takes no more than four instructions for each byte. */
  ghost predicate TestsBytes(e: Expr, off: nat, v: seq<byte>) {
    && TestsDefined(e) && InsnsOf(e) <= 4 * |v|
    && forall r: Regs, p: Packet :: BytesOutcome(Eval(e, r, p), r, p, off, v)
  }

  ghost predicate BytesOutcome(verdict: Verdict, r: Regs, p: Packet, off: nat, v: seq<byte>) {
    match verdict
    case Answer(value, r') => off + |v| <= |p.data| && value == (p.data[off..off + |v|] == v) && r'.mem == r.mem
    case Abort(why) => why == OutsidePacket && off + |v| > |p.data|
  }

  /** Equal big-endian values are equal bytes. */
  lemma FieldEqual(data: seq<byte>, off: nat, size: Size, v: seq<byte>)
    requires off + Width(size) <= |data| && |v| == Width(size)
    ensures Field(data, off, size) == Field(v, 0, size) <==> data[off..off + Width(size)] == v
  {
    var d := data[off..off + Width(size)];
    assert forall i :: 0 <= i < Width(size) ==> d[i] == data[off + i];
    if Field(data, off, size) == Field(v, 0, size) {
      match size {
        case Byte => assert d == v;
        case Half => assert d == v;
        case Word => assert d[0] == v[0] && d[1] == v[1] && d[2] == v[2] && d[3] == v[3]; assert d == v;
      }
    }
  }

  lemma TestsField(k: u32, size: Size, v: seq<byte>)
    requires |v| == Width(size)
    ensures TestsBytes(CompareExpr([LdAbs(size, k)], 0xffffffff, Eq, false, Field(v, 0, size)), k, v)
  {
    var e := CompareExpr([LdAbs(size, k)], 0xffffffff, Eq, false, Field(v, 0, size));
    forall r: Regs, p: Packet ensures BytesOutcome(Eval(e, r, p), r, p, k, v) {
      CompareMeaning(k, size, 0xffffffff, Eq, false, Field(v, 0, size), r, p);
      if k + Width(size) <= |p.data| {
        AndAllOnes(Field(p.data, k, size));
        FieldEqual(p.data, k, size, v);
      }
    }
  }

  /** Testing the tail first and then the head tests the whole. */
  lemma TestsBoth(hi: Expr, lo: Expr, off: nat, v: seq<byte>, cut: nat)
    requires cut <= |v|
    requires TestsBytes(hi, off + cut, v[cut..]) && TestsBytes(lo, off, v[..cut])
    ensures TestsBytes(AndThen(hi, lo), off, v)
  {
    forall r: Regs, p: Packet ensures BytesOutcome(Eval(AndThen(hi, lo), r, p), r, p, off, v) {
      assert BytesOutcome(Eval(hi, r, p), r, p, off + cut, v[cut..]);
      if off + |v| <= |p.data| {
        SliceEqual(p.data, off, v, cut);
        if Eval(hi, r, p).value {
          assert BytesOutcome(Eval(lo, Eval(hi, r, p).regs, p), Eval(hi, r, p).regs, p, off, v[..cut]);
        }
      }
    }
  }

  lemma SliceEqual(data: seq<byte>, off: nat, v: seq<byte>, cut: nat)
    requires cut <= |v| && off + |v| <= |data|
    ensures data[off..off + |v|] == v <==>
            data[off..off + cut] == v[..cut] && data[off + cut..off + |v|] == v[cut..]
  {
    var d := data[off..off + |v|];
    assert data[off..off + cut] == d[..cut];
    assert data[off + cut..off + |v|] == d[cut..];
    assert d == d[..cut] + d[cut..];
    assert v == v[..cut] + v[cut..];
  }

  /** gen_bcmp: compare the bytes, last word first, then a halfword, then a byte. */
  method GenBcmp(cs: CompilerState, offset: u32, v: seq<byte>) returns (b: Block?)
    requires cs.Valid() && !cs.offLinkHdr.variable
    requires cs.offLinkHdr.constant + offset + |v| < WORD
    ensures b == null <==> v == []
    ensures b != null ==> b.Open() && fresh(b.leaves)
    ensures b != null ==> TestsBytes(b.expr, cs.offLinkHdr.constant + offset, v)
  {
    hide Shape, Untouched, TestsBytes;
    ghost var base := cs.offLinkHdr.constant + offset;
    var size := |v|;
    b := null;
    while size >= 4
      invariant 0 <= size <= |v|
      invariant b == null <==> size == |v|
      invariant b != null ==> b.Open() && fresh(b.leaves) && TestsBytes(b.expr, base + size, v[size..])
    {
      b := GenPiece(cs, offset, v, size, Word, b);
      size := size - 4;
    }
    while size >= 2
      invariant 0 <= size <= |v|
      invariant size < 4
      invariant b == null <==> size == |v|
      invariant b != null ==> b.Open() && fresh(b.leaves) && TestsBytes(b.expr, base + size, v[size..])
    {
      b := GenPiece(cs, offset, v, size, Half, b);
      size := size - 2;
    }
    if size > 0 {
      b := GenPiece(cs, offset, v, size, Byte, b);
    }
    assert v[0..] == v;
  }

  /** One step of gen_bcmp: compare the last piece not yet compared and AND it with the rest. */
  method GenPiece(cs: CompilerState, offset: u32, v: seq<byte>, size: nat, piece: Size, b: Block?) returns (tmp: Block)
    requires cs.Valid() && !cs.offLinkHdr.variable
    requires cs.offLinkHdr.constant + offset + |v| < WORD
    requires Width(piece) <= size <= |v|
    requires b == null <==> size == |v|
    requires b != null ==> b.Open() && TestsBytes(b.expr, cs.offLinkHdr.constant + offset + size, v[size..])
    modifies if b == null then [] else b.leaves
    ensures tmp.Open() && fresh(tmp) && tmp.leaves == (if b == null then [] else old(b.leaves)) + [tmp]
    ensures TestsBytes(tmp.expr, cs.offLinkHdr.constant + offset + size - Width(piece), v[size - Width(piece)..])
  {
    hide Shape, Untouched, TestsBytes, CompareExpr, Field;
    var w := Width(piece);
    ghost var k := cs.offLinkHdr.constant + offset + size - w;
    PieceTests(k, piece, v, size - w);
    tmp := cs.GenNcmp(FromLinkHdr, offset + size - w, piece, 0xffffffff, Eq, false, Field(v, size - w, piece));
    if b != null {
      TestsBoth(b.expr, tmp.expr, k, v[size - w..], w);
      GenAnd(b, tmp);
    }
  }

  lemma PieceTests(k: u32, piece: Size, v: seq<byte>, at: nat)
    requires at + Width(piece) <= |v|
    ensures v[at..][Width(piece)..] == v[at + Width(piece)..]
    ensures v[at..][..Width(piece)] == v[at..at + Width(piece)]
    ensures at + Width(piece) == |v| ==> v[at..] == v[at..at + Width(piece)]
    ensures TestsBytes(CompareExpr([LdAbs(piece, k)], 0xffffffff, Eq, false, Field(v, at, piece)),
                       k, v[at..at + Width(piece)])
  {
    var part := v[at..at + Width(piece)];
    assert Field(v, at, piece) == Field(part, 0, piece);
    TestsField(k, piece, part);
  }
}
