/** Station address filters on plain 802.11: the code generated and where it finds the addresses. */
module Wlan {
  import opened Words
  import opened Bpf
  import opened Conditions
  import opened BlockGraph
  import opened Linearize
  import opened Codegen
  import opened FieldTests
  import opened Protocols

  /** A test of header bytes: one bit, a run of bytes, and combinations evaluated left to right. */
  datatype Spec =
    | Flag(off: nat, bit: nat, on: bool)
    | Bytes(off: nat, v: seq<byte>)
    | AndAlso(first: Spec, second: Spec)
    | OrElseTry(first: Spec, second: Spec)

  function Told(spec: Spec, p: Packet): Outcome {
    match spec
    case Flag(off, bit, on) =>
      if off < |p.data| then Value(Bit(p.data[off], bit) == on) else Reject(OutsidePacket)
    case Bytes(off, v) =>
      if off + |v| <= |p.data| then Value(p.data[off..off + |v|] == v) else Reject(OutsidePacket)
    case AndAlso(first, second) => Both(Told(first, p), Told(second, p))
    case OrElseTry(first, second) => Either(Told(first, p), Told(second, p))
  }

  /** The most instructions that the tests can take. */
  function SpecInsns(spec: Spec): nat {
    match spec
    case Flag(_, _, _) => 4
    case Bytes(_, v) => 4 * |v|
    case AndAlso(first, second) => SpecInsns(first) + SpecInsns(second)
    case OrElseTry(first, second) => SpecInsns(first) + SpecInsns(second)
  }

  ghost predicate Means(e: Expr, spec: Spec) {
    TestsDefined(e) && InsnsOf(e) <= SpecInsns(spec) && forall p: Packet :: Decides(e, p, Told(spec, p))
  }

  /** A new block that tests what spec says. */
  ghost predicate Asks(b: Block, spec: Spec)
    reads b, b.leaves
  {
    b.Open() && Means(b.expr, spec)
  }

  lemma BytesMean(e: Expr, off: nat, v: seq<byte>)
    requires TestsBytes(e, off, v)
    ensures Means(e, Bytes(off, v))
  {
    forall p: Packet, r: Regs ensures OutcomeOf(Eval(e, r, p)) == Told(Bytes(off, v), p) {
      assert BytesOutcome(Eval(e, r, p), r, p, off, v);
    }
  }

  function BitE(off: u32, k: u32, want: bool): Expr {
    var t := Leaf(Test([LdAbs(Byte, off)], ByK(Set, k)));
    if want then t else Not(t)
  }

  lemma BitMeans(off: u32, bit: nat, k: u32, want: bool)
    requires k == Pow2(bit)
    ensures Means(BitE(off, k, want), Flag(off, bit, want))
  {
    forall p: Packet, r: Regs ensures OutcomeOf(Eval(BitE(off, k, want), r, p)) == Told(Flag(off, bit, want), p) {
      ExecOne(LdAbs(Byte, off), r, p);
      if off < |p.data| {
        AndSingleBit(p.data[off], bit);
      }
    }
  }

  lemma AndMeans(a: Expr, b: Expr, s: Spec, t: Spec)
    requires Means(a, s) && Means(b, t)
    ensures Means(AndThen(a, b), AndAlso(s, t))
  {
    forall p: Packet ensures Decides(AndThen(a, b), p, Told(AndAlso(s, t), p)) {
      BothDecides(a, b, p, Told(s, p), Told(t, p));
    }
  }

  lemma OrMeans(a: Expr, b: Expr, s: Spec, t: Spec)
    requires Means(a, s) && Means(b, t)
    ensures Means(OrElse(a, b), OrElseTry(s, t))
  {
    forall p: Packet ensures Decides(OrElse(a, b), p, Told(OrElseTry(s, t), p)) {
      EitherDecides(a, b, p, Told(s, p), Told(t, p));
    }
  }

  // ---- The generators --------------------------------------------------------------------------

  /** A test of one bit of a link header byte, or of its absence. */
  method GenBit(cs: CompilerState, offset: u32, k: u32, want: bool, ghost bit: nat) returns (b: Block)
    requires cs.Valid() && cs.IsWlan() && k == Pow2(bit)
    ensures Asks(b, Flag(offset, bit, want)) && fresh(b.leaves)
  {
    hide Shape, Untouched, Means, Pow2;
    BitMeans(offset, bit, k, want);
    var ok, s := cs.GenLoadA(FromLinkHdr, offset, Byte);
    b := new Block.Cond(s, ByK(Set, k));
    if !want {
      GenNot(b);
    }
  }

  /** gen_bcmp of a station address. */
  method GenAddress(cs: CompilerState, offset: u32, addr: seq<byte>) returns (b: Block)
    requires cs.Valid() && cs.IsWlan() && |addr| == 6 && offset < 0x100
    ensures Asks(b, Bytes(offset, addr)) && fresh(b.leaves)
  {
    hide Shape, Untouched, Means, TestsBytes;
    var b' := GenBcmp(cs, offset, addr);
    b := b';
    BytesMean(b.expr, offset, addr);
  }

  method GenBoth(b0: Block, b1: Block, ghost s: Spec, ghost t: Spec)
    requires Asks(b0, s) && Asks(b1, t) && Disjoint(b0.leaves, b1.leaves)
    modifies b0.leaves, b1.leaves
    ensures Asks(b1, AndAlso(s, t)) && b1.leaves == old(b0.leaves + b1.leaves)
  {
    hide Shape, Untouched, Means;
    AndMeans(b0.expr, b1.expr, s, t);
    GenAnd(b0, b1);
  }

  method GenEither(b0: Block, b1: Block, ghost s: Spec, ghost t: Spec)
    requires Asks(b0, s) && Asks(b1, t) && Disjoint(b0.leaves, b1.leaves)
    modifies b0.leaves, b1.leaves
    ensures Asks(b1, OrElseTry(s, t)) && b1.leaves == old(b0.leaves + b1.leaves)
  {
    hide Shape, Untouched, Means;
    OrMeans(b0.expr, b1.expr, s, t);
    GenOr(b0, b1);
  }

  /** An address at a place that depends on a bit of the header. */
  function When(off: nat, bit: nat, want: bool, at: nat, addr: seq<byte>): Spec {
    AndAlso(Flag(off, bit, want), Bytes(at, addr))
  }

  method GenWhen(cs: CompilerState, offset: u32, k: u32, want: bool, at: u32, addr: seq<byte>, ghost bit: nat)
    returns (b: Block)
    requires cs.Valid() && cs.IsWlan() && k == Pow2(bit) && |addr| == 6 && at < 0x100
    ensures Asks(b, When(offset, bit, want, at, addr)) && fresh(b.leaves)
  {
    hide Asks, Shape, Pow2;
    var b1 := GenBit(cs, offset, k, want, bit);
    b := GenAddress(cs, at, addr);
    AsksLeaves(b1, Flag(offset, bit, want));
    AsksLeaves(b, Bytes(at, addr));
    GenBoth(b1, b, Flag(offset, bit, want), Bytes(at, addr));
  }

  lemma AsksLeaves(b: Block, spec: Spec)
    requires Asks(b, spec)
    ensures b in b.leaves
  {
  }

  /** Frames with From DS set carry the source in the third address, or in the fourth with To DS set. */
  function FromDsSource(addr: seq<byte>): Spec {
    OrElseTry(When(1, 0, false, 16, addr), When(1, 0, true, 24, addr))
  }

  function DataSource(addr: seq<byte>): Spec {
    OrElseTry(When(1, 1, false, 10, addr), AndAlso(Flag(1, 1, true), FromDsSource(addr)))
  }

  function SourceSpec(addr: seq<byte>): Spec {
    AndAlso(Flag(0, 2, false), OrElseTry(When(0, 3, false, 10, addr), AndAlso(Flag(0, 3, true), DataSource(addr))))
  }

  function DataDestination(addr: seq<byte>): Spec {
    OrElseTry(When(1, 0, false, 4, addr), When(1, 0, true, 16, addr))
  }

  function DestinationSpec(addr: seq<byte>): Spec {
    AndAlso(Flag(0, 2, false), OrElseTry(When(0, 3, false, 4, addr), AndAlso(Flag(0, 3, true), DataDestination(addr))))
  }

  method GenFromDsSource(cs: CompilerState, addr: seq<byte>) returns (b0: Block)
    requires cs.Valid() && cs.IsWlan() && |addr| == 6
    ensures Asks(b0, FromDsSource(addr)) && fresh(b0.leaves)
  {
    hide Asks, Shape;
    b0 := GenWhen(cs, 1, 0x01, true, 24, addr, 0);
    var b1 := GenWhen(cs, 1, 0x01, false, 16, addr, 0);
    GenEither(b1, b0, When(1, 0, false, 16, addr), When(1, 0, true, 24, addr));
  }

  method GenDataSource(cs: CompilerState, addr: seq<byte>) returns (b0: Block)
    requires cs.Valid() && cs.IsWlan() && |addr| == 6
    ensures Asks(b0, DataSource(addr)) && fresh(b0.leaves)
  {
    hide Asks, Shape, FromDsSource;
    b0 := GenFromDsSource(cs, addr);
    var b1 := GenBit(cs, 1, 0x02, true, 1);
    GenBoth(b1, b0, Flag(1, 1, true), FromDsSource(addr));
    b1 := GenWhen(cs, 1, 0x02, false, 10, addr, 1);
    GenEither(b1, b0, When(1, 1, false, 10, addr), AndAlso(Flag(1, 1, true), FromDsSource(addr)));
  }

  /** The checks of the frame type around those for data frames. */
  method GenByType(cs: CompilerState, b: Block, management: u32, addr: seq<byte>, ghost data: Spec) returns (b0: Block)
    requires cs.Valid() && cs.IsWlan() && |addr| == 6 && management < 0x100 && Asks(b, data)
    modifies b.leaves
    ensures b0 == b && fresh(set l | l in b.leaves && l !in old(b.leaves))
    ensures Asks(b0, AndAlso(Flag(0, 2, false),
                             OrElseTry(When(0, 3, false, management, addr), AndAlso(Flag(0, 3, true), data))))
  {
    hide Asks, Shape;
    assert Pow2(2) == 4 && Pow2(3) == 8;
    b0 := b;
    var b1 := GenBit(cs, 0, 0x08, true, 3);
    GenBoth(b1, b0, Flag(0, 3, true), data);
    b1 := GenWhen(cs, 0, 0x08, false, management, addr, 3);
    GenEither(b1, b0, When(0, 3, false, management, addr), AndAlso(Flag(0, 3, true), data));
    b1 := GenBit(cs, 0, 0x04, false, 2);
    GenBoth(b1, b0, Flag(0, 2, false),
      OrElseTry(When(0, 3, false, management, addr), AndAlso(Flag(0, 3, true), data)));
  }

  /** gen_wlanhostop for Q_SRC. */
  method GenSource(cs: CompilerState, addr: seq<byte>) returns (b0: Block)
    requires cs.Valid() && cs.IsWlan() && |addr| == 6
    ensures Asks(b0, SourceSpec(addr)) && fresh(b0.leaves)
  {
    hide Asks, Shape, DataSource;
    b0 := GenDataSource(cs, addr);
    b0 := GenByType(cs, b0, 10, addr, DataSource(addr));
  }

  /** gen_wlanhostop for Q_DST. */
  method GenDestination(cs: CompilerState, addr: seq<byte>) returns (b0: Block)
    requires cs.Valid() && cs.IsWlan() && |addr| == 6
    ensures Asks(b0, DestinationSpec(addr)) && fresh(b0.leaves)
  {
    hide Asks, Shape;
    b0 := GenWhen(cs, 1, 0x01, true, 16, addr, 0);
    var b1 := GenWhen(cs, 1, 0x01, false, 4, addr, 0);
    GenEither(b1, b0, When(1, 0, false, 4, addr), When(1, 0, true, 16, addr));
    b0 := GenByType(cs, b0, 4, addr, DataDestination(addr));
  }

  function HostSpec(dir: Direction, addr: seq<byte>): Spec {
    match dir
    case Src => SourceSpec(addr)
    case Dst => DestinationSpec(addr)
    case SrcAndDst => AndAlso(SourceSpec(addr), DestinationSpec(addr))
    case SrcOrDst => OrElseTry(SourceSpec(addr), DestinationSpec(addr))
  }

  /** gen_wlanhostop for the directions that name no single address field. */
  method GenWlanhostop(cs: CompilerState, addr: seq<byte>, dir: Direction) returns (b: Block)
    requires cs.Valid() && cs.IsWlan() && |addr| == 6
    ensures Asks(b, HostSpec(dir, addr)) && fresh(b.leaves)
  {
    hide Asks, Shape, SourceSpec, DestinationSpec;
    match dir {
      case Src => b := GenSource(cs, addr);
      case Dst => b := GenDestination(cs, addr);
      case SrcAndDst =>
        var b0 := GenSource(cs, addr);
        b := GenDestination(cs, addr);
        GenBoth(b0, b, SourceSpec(addr), DestinationSpec(addr));
      case SrcOrDst =>
        var b0 := GenSource(cs, addr);
        b := GenDestination(cs, addr);
        GenEither(b0, b, SourceSpec(addr), DestinationSpec(addr));
    }
  }

  // ---- Where the standard puts the addresses ---------------------------------------------------

  /** The address fields of the MAC header and where they start. */
  datatype AddressField = Address1 | Address2 | Address3 | Address4

  function StartOf(f: AddressField): nat {
    match f case Address1 => 4 case Address2 => 10 case Address3 => 16 case Address4 => 24
  }

  datatype FrameType = Management | Control | Data | Extension

  /** The Type subfield: bits 2 and 3 of the first Frame Control octet. */
  function TypeOf(fc0: byte): FrameType {
    match (fc0 / 4) % 4 case 0 => Management case 1 => Control case 2 => Data case _ => Extension
  }

  predicate ToDs(fc1: byte) { fc1 % 2 == 1 }

  predicate FromDs(fc1: byte) { (fc1 / 2) % 2 == 1 }

  /** Section 9.3.2.1 of IEEE Std 802.11-2016: the contents of the address fields of data frames. */
  function SourceField(toDs: bool, fromDs: bool): AddressField {
    if !fromDs then Address2 else if !toDs then Address3 else Address4
  }

  function DestinationField(toDs: bool): AddressField {
    if !toDs then Address1 else Address3
  }

  /** Where a frame has an address. Unknown: too little was captured to tell. */
  datatype Where = Nowhere | Unknown | In(field: AddressField)

  function SourceIn(data: seq<byte>): Where {
    if |data| < 1 then Unknown
    else
      match TypeOf(data[0])
      case Management => In(Address2)
      case Data => if |data| < 2 then Unknown else In(SourceField(ToDs(data[1]), FromDs(data[1])))
      case _ => Nowhere
  }

  function DestinationIn(data: seq<byte>): Where {
    if |data| < 1 then Unknown
    else
      match TypeOf(data[0])
      case Management => In(Address1)
      case Data => if |data| < 2 then Unknown else In(DestinationField(ToDs(data[1])))
      case _ => Nowhere
  }

  /** The frame has the address, all of it was captured, and it is addr. */
  predicate Carries(data: seq<byte>, where: Where, addr: seq<byte>) {
    where.In? && StartOf(where.field) + |addr| <= |data|
    && data[StartOf(where.field)..StartOf(where.field) + |addr|] == addr
  }

  /** Too little was captured to find the address or to compare it. */
  predicate CutOff(data: seq<byte>, where: Where, addr: seq<byte>) {
    where.Unknown? || (where.In? && StartOf(where.field) + |addr| > |data|)
  }

  function AddressIs(data: seq<byte>, where: Where, addr: seq<byte>): Outcome {
    if CutOff(data, where, addr) then Reject(OutsidePacket) else Value(Carries(data, where, addr))
  }

  lemma HeaderBits(x: byte)
    ensures Bit(x, 0) == ToDs(x) && Bit(x, 1) == FromDs(x)
    ensures TypeOf(x) == if Bit(x, 3) then (if Bit(x, 2) then Extension else Data)
                         else if Bit(x, 2) then Control else Management
  {
    var q := x / 4;
    assert Bit(x, 2) == Bit(x / 2 / 2, 0) == (q % 2 == 1) by { assert x / 2 / 2 == q; }
    assert Bit(x, 3) == Bit(x / 2 / 2 / 2, 0) == ((q / 2) % 2 == 1) by { assert x / 2 / 2 / 2 == q / 2; }
    TwoBits(q);
  }

  lemma TwoBits(q: nat)
    ensures q % 4 == 2 * ((q / 2) % 2) + q % 2
  {
  }

  lemma WhenTold(off: nat, bit: nat, want: bool, at: nat, addr: seq<byte>, p: Packet)
    ensures Told(When(off, bit, want, at, addr), p) ==
      if off >= |p.data| then Reject(OutsidePacket)
      else if Bit(p.data[off], bit) != want then Value(false)
      else if at + |addr| > |p.data| then Reject(OutsidePacket)
      else Value(p.data[at..at + |addr|] == addr)
  {
  }

  lemma AndTold(s: Spec, t: Spec, p: Packet)
    ensures Told(AndAlso(s, t), p) == Both(Told(s, p), Told(t, p))
    ensures Told(OrElseTry(s, t), p) == Either(Told(s, p), Told(t, p))
  {
  }

  /** The data part of the source test, on a data frame. */
  lemma DataSourceTold(addr: seq<byte>, p: Packet)
    requires |p.data| >= 2
    ensures Told(DataSource(addr), p)
      == AddressIs(p.data, In(SourceField(ToDs(p.data[1]), FromDs(p.data[1]))), addr)
  {
    HeaderBits(p.data[1]);
    WhenTold(1, 0, false, 16, addr, p);
    WhenTold(1, 0, true, 24, addr, p);
    WhenTold(1, 1, false, 10, addr, p);
    AndTold(When(1, 0, false, 16, addr), When(1, 0, true, 24, addr), p);
    AndTold(Flag(1, 1, true), FromDsSource(addr), p);
    assert Told(Flag(1, 1, true), p) == Value(Bit(p.data[1], 1));
    hide Told, Bit;
    AndTold(When(1, 1, false, 10, addr), AndAlso(Flag(1, 1, true), FromDsSource(addr)), p);
  }

  lemma DataDestinationTold(addr: seq<byte>, p: Packet)
    requires |p.data| >= 2
    ensures Told(DataDestination(addr), p) == AddressIs(p.data, In(DestinationField(ToDs(p.data[1]))), addr)
  {
    HeaderBits(p.data[1]);
    WhenTold(1, 0, false, 4, addr, p);
    WhenTold(1, 0, true, 16, addr, p);
    hide Told, Bit;
    AndTold(When(1, 0, false, 4, addr), When(1, 0, true, 16, addr), p);
  }

  /** The checks of the frame type, around the test of a data frame. */
  lemma ByTypeTold(addr: seq<byte>, at: nat, data: Spec, p: Packet)
    ensures
      Told(AndAlso(Flag(0, 2, false), OrElseTry(When(0, 3, false, at, addr), AndAlso(Flag(0, 3, true), data))), p) ==
      if |p.data| < 1 then Reject(OutsidePacket)
      else match TypeOf(p.data[0])
           case Management =>
             if at + |addr| > |p.data| then Reject(OutsidePacket) else Value(p.data[at..at + |addr|] == addr)
           case Data => Told(data, p)
           case _ => Value(false)
  {
    if |p.data| >= 1 { HeaderBits(p.data[0]); }
    WhenTold(0, 3, false, at, addr, p);
    AndTold(Flag(0, 3, true), data, p);
    AndTold(When(0, 3, false, at, addr), AndAlso(Flag(0, 3, true), data), p);
    assert |p.data| >= 1 ==>
      Told(Flag(0, 3, true), p) == Value(Bit(p.data[0], 3)) && Told(Flag(0, 2, false), p) == Value(!Bit(p.data[0], 2));
    assert |p.data| < 1 ==> Told(Flag(0, 2, false), p) == Reject(OutsidePacket);
    hide Told, Bit, TypeOf;
    AndTold(Flag(0, 2, false), OrElseTry(When(0, 3, false, at, addr), AndAlso(Flag(0, 3, true), data)), p);
  }

  /** A test that needs the second Frame Control octet fails where it was not captured. */
  lemma DataCutOff(addr: seq<byte>, p: Packet)
    requires |p.data| < 2
    ensures Told(DataSource(addr), p) == Told(DataDestination(addr), p) == Reject(OutsidePacket)
  {
    WhenTold(1, 1, false, 10, addr, p);
    WhenTold(1, 0, false, 4, addr, p);
  }

  /** The source test looks where the standard puts the source address. */
  lemma SourceTold(addr: seq<byte>, p: Packet)
    ensures Told(SourceSpec(addr), p) == AddressIs(p.data, SourceIn(p.data), addr)
  {
    ByTypeTold(addr, 10, DataSource(addr), p);
    if |p.data| >= 2 { DataSourceTold(addr, p); } else { DataCutOff(addr, p); }
    hide Told, DataSource, TypeOf;
  }

  /** The destination test looks where the standard puts the destination address. */
  lemma DestinationTold(addr: seq<byte>, p: Packet)
    ensures Told(DestinationSpec(addr), p) == AddressIs(p.data, DestinationIn(p.data), addr)
  {
    ByTypeTold(addr, 4, DataDestination(addr), p);
    if |p.data| >= 2 { DataDestinationTold(addr, p); } else { DataCutOff(addr, p); }
    hide Told, DataDestination, TypeOf;
  }

  /** The frames each direction is about. */
  predicate Wanted(dir: Direction, addr: seq<byte>, data: seq<byte>) {
    match dir
    case Src => Carries(data, SourceIn(data), addr)
    case Dst => Carries(data, DestinationIn(data), addr)
    case SrcAndDst => Carries(data, SourceIn(data), addr) && Carries(data, DestinationIn(data), addr)
    case SrcOrDst => Carries(data, SourceIn(data), addr) || Carries(data, DestinationIn(data), addr)
  }

  /**
   * A frame is accepted exactly if it is wanted, except that for either direction a frame is also
   * rejected when its source address was cut off, even if its destination address is the one.
   */
  lemma HostTold(dir: Direction, addr: seq<byte>, p: Packet)
    ensures Told(HostSpec(dir, addr), p) == Value(true) <==>
      Wanted(dir, addr, p.data) && !(dir == SrcOrDst && CutOff(p.data, SourceIn(p.data), addr))
  {
    SourceTold(addr, p);
    DestinationTold(addr, p);
    hide SourceSpec, DestinationSpec, SourceIn, DestinationIn;
  }

  /** A frame between two access points whose fourth address was cut off: wanted, but rejected. */
  lemma CutOffIsMissed()
    ensures exists data: seq<byte>, addr: seq<byte> ::
      |addr| == 6 && |data| < WORD && Wanted(SrcOrDst, addr, data)
      && Told(HostSpec(SrcOrDst, addr), RawPacket(data, |data|)) != Value(true)
  {
    var addr: seq<byte> := [0, 0, 0, 0, 0, 0];
    var data: seq<byte> := [0x08, 0x03] + seq(20, _ => 0);
    assert data[16..22] == addr;
    assert TypeOf(data[0]) == Data && ToDs(data[1]) && FromDs(data[1]);
    HostTold(SrcOrDst, addr, RawPacket(data, |data|));
  }

  // ---- The whole filter ------------------------------------------------------------------------

  /** The finished graph returns the snapshot length exactly for the frames that are told true. */
  ghost predicate Accepts(root: Block, bs: seq<Block>, spec: Spec, snaplen: u32)
    reads bs`jt, bs`jf, bs`stmts, bs`s
  {
    forall r: Regs, p: Packet :: RunMeans(root, bs, r, p, Told(spec, p), snaplen)
  }

  /** Compiling a host filter on plain 802.11, where the registers of the variable header are not used. */
  method CompileHost(addr: seq<byte>, dir: Direction, snaplen: u32)
    returns (root: Block, ghost bs: seq<Block>)
    requires |addr| == 6
    ensures Accepts(root, bs, HostSpec(dir, addr), snaplen) && Convertible(root, bs) && fresh(bs) && BlocksDefined(bs)
    ensures Most(bs) <= SpecInsns(HostSpec(dir, addr)) + 6
  {
    hide Shape, Untouched, Told, HostSpec, Compiled, Convertible, Distinct, BlocksDefined, TestsDefined, InsnsOf,
         SpecInsns, Means, Most, Accepts;
    var cs := new CompilerState.Wlan();
    var b := GenWlanhostop(cs, addr, dir);
    ghost var x := b.expr;
    PrefixNothing(x);
    ghost var top := b;
    var r, accept, reject := FinishParse(b, [], null, snaplen);
    root := r;
    bs := top.leaves + [accept, reject];
    CompiledConverts(top.leaves, x, accept, reject, snaplen);
    MeansDefined(x, HostSpec(dir, addr));
    CompiledDefined(top.leaves, x, accept, reject, snaplen);
    CompiledIsWithin(top.leaves, x, accept, reject, snaplen);
    CompiledAccepts(top.leaves, x, accept, reject, HostSpec(dir, addr), snaplen);
  }

  lemma MeansDefined(e: Expr, spec: Spec)
    requires Means(e, spec)
    ensures TestsDefined(e) && InsnsOf(e) <= SpecInsns(spec)
  {
  }

  lemma CompiledAccepts(ls: seq<Block>, x: Expr, accept: Block, reject: Block, spec: Spec, snaplen: u32)
    requires Means(x, spec) && Compiled(ls, x, accept, reject, snaplen)
    ensures |ls| >= 1 && Accepts(ls[0], ls + [accept, reject], spec, snaplen)
  {
    var bs, root := ls + [accept, reject], ls[0];
    forall r: Regs, p: Packet ensures RunMeans(root, bs, r, p, Told(spec, p), snaplen) {
      CompiledRun(ls, x, accept, reject, r, p, Told(spec, p), snaplen);
    }
  }
}
