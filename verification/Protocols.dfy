/** Protocol checks on Ethernet: the code generated and what it accepts. */
module Protocols {
  import opened Words
  import opened Bpf
  import opened Conditions
  import opened BlockGraph
  import opened Codegen
  import opened FieldTests

  datatype NetProto = Ip | Arp | Rarp | Ip6
  datatype TranProto = Icmp | Igmp | Igrp | Vrrp | Carp | Tcp | Udp | Sctp | Pim

  /** Which of the two addresses a filter is about. */
  datatype Direction = Src | Dst | SrcAndDst | SrcOrDst

  function EtherType(q: NetProto): u32 {
    match q case Ip => 0x0800 case Arp => 0x0806 case Rarp => 0x8035 case Ip6 => 0x86dd
  }

  function IpProto(q: TranProto): u32 {
    match q
    case Icmp => 1 case Igmp => 2 case Igrp => 9 case Vrrp => 112 case Carp => 112
    case Tcp => 6 case Udp => 17 case Sctp => 132 case Pim => 103
  }

  /** The protocols that the abbreviation also looks for over IPv6. */
  predicate OverIp6(q: TranProto) {
    q == Tcp || q == Udp || q == Sctp || q == Pim
  }

  const TYPE_AT := 12
  const NET_AT := 14
  const IPPROTO_FRAGMENT := 44

  // ---- Meanings, in terms of the packet alone -----------------------------------

  function Both(a: Outcome, b: Outcome): Outcome {
    if a == Value(true) then b else a
  }

  function Either(a: Outcome, b: Outcome): Outcome {
    if a == Value(false) then b else a
  }

  function Opposite(a: Outcome): Outcome {
    match a case Value(v) => Value(!v) case Reject(why) => Reject(why)
  }

  function FieldIs(p: Packet, off: nat, size: Size, v: u32): Outcome {
    if off + Width(size) <= |p.data| then Value(Field(p.data, off, size) == v) else Reject(OutsidePacket)
  }

  function IsNet(q: NetProto, p: Packet): Outcome {
    FieldIs(p, TYPE_AT, Half, EtherType(q))
  }

  /** IPv4 with this protocol number. */
  function IsTran4(q: TranProto, p: Packet): Outcome {
    Both(IsNet(Ip, p), FieldIs(p, NET_AT + 9, Byte, IpProto(q)))
  }

  /** IPv6 with this next header, directly or after one fragment header. */
  function IsTran6(q: TranProto, p: Packet): Outcome {
    Both(IsNet(Ip6, p),
         Either(FieldIs(p, NET_AT + 6, Byte, IpProto(q)),
                Both(FieldIs(p, NET_AT + 6, Byte, IPPROTO_FRAGMENT), FieldIs(p, NET_AT + 40, Byte, IpProto(q)))))
  }

  function IsTran(q: TranProto, p: Packet): Outcome {
    if OverIp6(q) then Either(IsTran6(q, p), IsTran4(q, p)) else IsTran4(q, p)
  }

  /** Not a later fragment of an IPv4 datagram: the fragment offset is 0. */
  function IsFirstFragment(p: Packet): Outcome {
    if NET_AT + 8 <= |p.data| then Value(Field(p.data, NET_AT + 6, Half) % 0x2000 == 0) else Reject(OutsidePacket)
  }

  // ---- The code -----------------------------------------------------------------

  function CmpE(off: u32, size: Size, v: u32): Expr {
    CompareExpr([LdAbs(size, off)], 0xffffffff, Eq, false, v)
  }

  function NetE(q: NetProto): Expr {
    CmpE(TYPE_AT, Half, EtherType(q))
  }

  function Tran4E(q: TranProto): Expr {
    AndThen(NetE(Ip), CmpE(NET_AT + 9, Byte, IpProto(q)))
  }

  function Tran6E(q: TranProto): Expr {
    AndThen(NetE(Ip6),
            OrElse(CmpE(NET_AT + 6, Byte, IpProto(q)),
                   AndThen(CmpE(NET_AT + 6, Byte, IPPROTO_FRAGMENT), CmpE(NET_AT + 40, Byte, IpProto(q)))))
  }

  function TranE(q: TranProto): Expr {
    if OverIp6(q) then OrElse(Tran6E(q), Tran4E(q)) else Tran4E(q)
  }

  function FragE(): Expr {
    Not(Leaf(Test([LdAbs(Half, NET_AT + 6)], ByK(Set, 0x1fff))))
  }

  /** e decides o for every register state, on packet p. */
  ghost predicate Decides(e: Expr, p: Packet, o: Outcome) {
    forall r: Regs :: OutcomeOf(Eval(e, r, p)) == o
  }

  lemma CmpDecides(off: u32, size: Size, v: u32, p: Packet)
    ensures Decides(CmpE(off, size, v), p, FieldIs(p, off, size, v))
  {
    forall r: Regs ensures OutcomeOf(Eval(CmpE(off, size, v), r, p)) == FieldIs(p, off, size, v) {
      CompareMeaning(off, size, 0xffffffff, Eq, false, v, r, p);
      if off + Width(size) <= |p.data| { AndAllOnes(Field(p.data, off, size)); }
    }
  }

  lemma BothDecides(a: Expr, b: Expr, p: Packet, o: Outcome, o': Outcome)
    requires Decides(a, p, o) && Decides(b, p, o')
    ensures Decides(AndThen(a, b), p, Both(o, o'))
  {
    forall r: Regs ensures OutcomeOf(Eval(AndThen(a, b), r, p)) == Both(o, o') {
      assert OutcomeOf(Eval(a, r, p)) == o;
      if Eval(a, r, p).Answer? {
        assert OutcomeOf(Eval(b, Eval(a, r, p).regs, p)) == o';
      }
    }
  }

  lemma EitherDecides(a: Expr, b: Expr, p: Packet, o: Outcome, o': Outcome)
    requires Decides(a, p, o) && Decides(b, p, o')
    ensures Decides(OrElse(a, b), p, Either(o, o'))
  {
    forall r: Regs ensures OutcomeOf(Eval(OrElse(a, b), r, p)) == Either(o, o') {
      assert OutcomeOf(Eval(a, r, p)) == o;
      if Eval(a, r, p).Answer? {
        assert OutcomeOf(Eval(b, Eval(a, r, p).regs, p)) == o';
      }
    }
  }

  lemma OppositeDecides(a: Expr, p: Packet, o: Outcome)
    requires Decides(a, p, o)
    ensures Decides(Not(a), p, Opposite(o))
  {
    forall r: Regs ensures OutcomeOf(Eval(Not(a), r, p)) == Opposite(o) {
      assert OutcomeOf(Eval(a, r, p)) == o;
    }
  }

  lemma NetDecides(q: NetProto, p: Packet)
    ensures Decides(NetE(q), p, IsNet(q, p))
  {
    CmpDecides(TYPE_AT, Half, EtherType(q), p);
  }

  lemma FragDecides(p: Packet)
    ensures Decides(FragE(), p, IsFirstFragment(p))
  {
    assert Pow2(13) == 0x2000 by { assert Pow2(10) == 0x400; }
    forall r: Regs ensures OutcomeOf(Eval(FragE(), r, p)) == IsFirstFragment(p) {
      ExecOne(LdAbs(Half, NET_AT + 6), r, p);
      if NET_AT + 8 <= |p.data| {
        AndLowMask(Field(p.data, NET_AT + 6, Half), 13);
      }
    }
  }

  /** The protocol abbreviations decide exactly what their names say. */
  lemma TranDecides(q: TranProto, p: Packet)
    ensures Decides(TranE(q), p, IsTran(q, p))
  {
    NetDecides(Ip, p);
    NetDecides(Ip6, p);
    CmpDecides(NET_AT + 9, Byte, IpProto(q), p);
    CmpDecides(NET_AT + 6, Byte, IpProto(q), p);
    CmpDecides(NET_AT + 6, Byte, IPPROTO_FRAGMENT, p);
    CmpDecides(NET_AT + 40, Byte, IpProto(q), p);
    var next, frag, after := FieldIs(p, NET_AT + 6, Byte, IpProto(q)),
                             FieldIs(p, NET_AT + 6, Byte, IPPROTO_FRAGMENT), FieldIs(p, NET_AT + 40, Byte, IpProto(q));
    BothDecides(CmpE(NET_AT + 6, Byte, IPPROTO_FRAGMENT), CmpE(NET_AT + 40, Byte, IpProto(q)), p, frag, after);
    EitherDecides(CmpE(NET_AT + 6, Byte, IpProto(q)), Tran6E(q).right.right, p, next, Both(frag, after));
    BothDecides(NetE(Ip6), Tran6E(q).right, p, IsNet(Ip6, p), Either(next, Both(frag, after)));
    BothDecides(NetE(Ip), CmpE(NET_AT + 9, Byte, IpProto(q)), p,
                IsNet(Ip, p), FieldIs(p, NET_AT + 9, Byte, IpProto(q)));
    EitherDecides(Tran6E(q), Tran4E(q), p, IsTran6(q, p), IsTran4(q, p));
  }

  // ---- The generators -------------------------------------------------------------

  /** A new block standing for e. */
  ghost predicate Stands(b: Block, e: Expr)
    reads b, b.leaves
  {
    b.Open() && b.expr == e
  }

  /** gen_cmp on an Ethernet layout. */
  method GenCmp(cs: CompilerState, rel: OffRel, offset: u32, size: Size, v: u32) returns (b: Block)
    requires cs.Valid() && cs.IsEthernet() && rel in {FromLinkHdr, FromLinkType, FromLinkPl} && offset < 0x1_0000
    ensures var at := match rel case FromLinkHdr => 0 case FromLinkType => TYPE_AT case _ => NET_AT;
      Stands(b, CmpE(offset + at, size, v))
    ensures fresh(b.leaves)
  {
    hide Shape, Untouched;
    b := cs.GenNcmp(rel, offset, size, 0xffffffff, Eq, false, v);
  }

  /** gen_linktype for these Ethernet types. */
  method GenLinktype(cs: CompilerState, q: NetProto) returns (b: Block)
    requires cs.Valid() && cs.IsEthernet()
    ensures Stands(b, NetE(q)) && fresh(b.leaves)
  {
    hide Stands;
    b := GenCmp(cs, FromLinkType, 0, Half, EtherType(q));
  }

  /** gen_proto over IPv4. */
  method GenProto4(cs: CompilerState, q: TranProto) returns (b1: Block)
    requires cs.Valid() && cs.IsEthernet()
    ensures Stands(b1, Tran4E(q)) && fresh(b1.leaves)
  {
    hide Shape, Untouched;
    var b0 := GenLinktype(cs, Ip);
    b1 := GenCmp(cs, FromLinkPl, 9, Byte, IpProto(q));
    GenAnd(b0, b1);
  }

  /** gen_proto over IPv6. */
  method GenProto6(cs: CompilerState, q: TranProto) returns (b1: Block)
    requires cs.Valid() && cs.IsEthernet()
    ensures Stands(b1, Tran6E(q)) && fresh(b1.leaves)
  {
    hide Shape, Untouched;
    var b0 := GenLinktype(cs, Ip6);
    b1 := GenNextHeader(cs, q);
    GenAnd(b0, b1);
  }

  /** Its next-header part: the protocol, directly or after a fragment header. */
  method GenNextHeader(cs: CompilerState, q: TranProto) returns (b1: Block)
    requires cs.Valid() && cs.IsEthernet()
    ensures Stands(b1, Tran6E(q).right) && fresh(b1.leaves)
  {
    hide Shape, Untouched, CmpE;
    var b2 := GenCmp(cs, FromLinkPl, 6, Byte, IPPROTO_FRAGMENT);
    b1 := GenCmp(cs, FromLinkPl, 40, Byte, IpProto(q));
    GenAnd(b2, b1);
    b2 := GenCmp(cs, FromLinkPl, 6, Byte, IpProto(q));
    GenOr(b2, b1);
  }

  /** gen_proto_abbrev for a transport protocol. */
  method GenTran(cs: CompilerState, q: TranProto) returns (b1: Block)
    requires cs.Valid() && cs.IsEthernet()
    ensures Stands(b1, TranE(q)) && fresh(b1.leaves)
  {
    hide Shape, Untouched;
    b1 := GenProto4(cs, q);
    if OverIp6(q) {
      var b0 := GenProto6(cs, q);
      GenOr(b0, b1);
    }
  }

  /** gen_ipfrag. */
  method GenIpfrag(cs: CompilerState) returns (b: Block)
    requires cs.Valid() && cs.IsEthernet()
    ensures Stands(b, FragE()) && fresh(b.leaves)
  {
    hide Shape, Untouched;
    var ok, s := cs.GenLoadA(FromLinkPl, 6, Half);
    b := new Block.Cond(s, ByK(Set, 0x1fff));
    GenNot(b);
  }

  // ---- Finished graphs --------------------------------------------------------------

  /** Entering no more blocks than there are, the graph returns the snapshot length where the outcome is true, 0 where
      it is false, and rejects where it is a rejection. */
  ghost predicate RunMeans(root: Block, bs: seq<Block>, r: Regs, p: Packet, o: Outcome, snaplen: u32)
    reads bs`jt, bs`jf, bs`stmts, bs`s
  {
    var end := Run(root, bs, r, p, |bs|);
    match o
    case Value(v) => end == Returned(if v then snaplen else 0)
    case Reject(why) => end == Rejected(why)
  }

  lemma CompiledRun(ls: seq<Block>, x: Expr, accept: Block, reject: Block, r: Regs, p: Packet, o: Outcome, snaplen: u32)
    requires Decides(x, p, o) && Compiled(ls, x, accept, reject, snaplen)
    ensures |ls| >= 1 && RunMeans(ls[0], ls + [accept, reject], r, p, o, snaplen)
  {
    GraphDecidesExpression(ls, x, accept, reject, snaplen, r, p);
  }
}
