/**
 * The protocol checks that come with index operations. The code generator drops those of the right
 * operand of a binary operator: when that loses nothing.
 */
module IndexChecks {
  import opened Words
  import opened Bpf
  import opened FieldTests
  import opened Protocols
  import opened Arithmetic
  import opened FilterCompiler

  /** The layers an expression indexes. */
  function Indexed(e: AExpr): set<Layer> {
    match e
    case Num(_) => {}
    case Len => {}
    case Load(layer, i, _) => {layer} + Indexed(i)
    case Minus(a) => Indexed(a)
    case Binary(_, a, b) => Indexed(a) + Indexed(b)
  }

  /** The layers the generated check is about. */
  function Checked(e: AExpr): set<Layer> {
    match e
    case Num(_) => {}
    case Len => {}
    case Load(layer, i, _) => {layer} + Checked(i)
    case Minus(a) => Checked(a)
    case Binary(_, a, _) => Checked(a)
  }

  /** What makes an index into this layer mean what it says: the protocol, and for transport headers IPv4 and, as the
      manual has it for tcp and udp, no later fragment. */
  predicate OfLayer(l: Layer, p: Packet) {
    match l
    case Link => true
    case Net(q) => IsNet(q, p) == Value(true)
    case Tran(q) => IsNet(Ip, p) == Value(true) && IsTran(q, p) == Value(true) && IsFirstFragment(p) == Value(true)
  }

  ghost predicate OfAll(ls: set<Layer>, p: Packet) {
    forall l | l in ls :: OfLayer(l, p)
  }

  /** The check passes exactly the packets of the layers it is about. */
  lemma {:induction false} CheckIsOfAll(e: AExpr, p: Packet)
    ensures GuardMeaning(e, p) == Value(true) <==> OfAll(Checked(e), p)
  {
    match e {
      case Num(_) =>
      case Len =>
      case Minus(a) => CheckIsOfAll(a, p);
      case Binary(_, a, _) => CheckIsOfAll(a, p);
      case Load(layer, i, _) =>
        CheckIsOfAll(i, p);
        assert OfAll(Checked(e), p) <==> OfLayer(layer, p) && OfAll(Checked(i), p);
        match layer {
          case Link =>
          case Net(q) =>
          case Tran(q) =>
        }
    }
  }

  // ---- When one layer's check follows from others ----------------------------------------------

  predicate NeedsNet(ls: set<Layer>, q: NetProto) {
    Net(q) in ls || (q == Ip && exists t :: Tran(t) in ls)
  }

  predicate NeedsNumber(ls: set<Layer>, n: u32) {
    exists t :: Tran(t) in ls && IpProto(t) == n
  }

  /** No packet can be of all these layers. */
  predicate Conflict(ls: set<Layer>) {
    || (exists q, r :: q != r && NeedsNet(ls, q) && NeedsNet(ls, r))
    || (exists t, u :: Tran(t) in ls && Tran(u) in ls && IpProto(t) != IpProto(u))
  }

  predicate Implied(ls: set<Layer>, l: Layer) {
    Conflict(ls) ||
    match l
    case Link => true
    case Net(q) => NeedsNet(ls, q)
    case Tran(t) => NeedsNumber(ls, IpProto(t))
  }

  /** On an IPv4 packet a transport protocol is its number in the header. */
  lemma TranOverIp(t: TranProto, p: Packet)
    requires IsNet(Ip, p) == Value(true)
    ensures IsTran(t, p) == FieldIs(p, NET_AT + 9, Byte, IpProto(t))
  {
  }

  lemma NeededNet(ls: set<Layer>, q: NetProto, p: Packet)
    requires OfAll(ls, p) && NeedsNet(ls, q)
    ensures IsNet(q, p) == Value(true)
  {
    if Net(q) in ls {
      assert OfLayer(Net(q), p);
    } else {
      var t :| Tran(t) in ls;
      assert OfLayer(Tran(t), p);
    }
  }

  lemma NoConflict(ls: set<Layer>, p: Packet)
    requires OfAll(ls, p)
    ensures !Conflict(ls)
  {
    forall q, r | NeedsNet(ls, q) && NeedsNet(ls, r) ensures q == r {
      NeededNet(ls, q, p);
      NeededNet(ls, r, p);
    }
    forall t, u | Tran(t) in ls && Tran(u) in ls ensures IpProto(t) == IpProto(u) {
      assert OfLayer(Tran(t), p) && OfLayer(Tran(u), p);
      TranOverIp(t, p);
      TranOverIp(u, p);
    }
  }

  lemma ImpliedHolds(ls: set<Layer>, l: Layer, p: Packet)
    requires OfAll(ls, p) && Implied(ls, l)
    ensures OfLayer(l, p)
  {
    NoConflict(ls, p);
    match l {
      case Link =>
      case Net(q) => NeededNet(ls, q, p);
      case Tran(t) =>
        var u :| Tran(u) in ls && IpProto(u) == IpProto(t);
        assert OfLayer(Tran(u), p);
        TranOverIp(t, p);
        TranOverIp(u, p);
    }
  }

  // ---- A packet for every set of layers that go together ----------------------------------------

  /** An unfragmented frame of the given type and transport protocol number. */
  function Frame(q: NetProto, number: byte): Packet {
    var t := EtherType(q);
    RawPacket([0, 0, 0, 0, 0, 0, 0, 0, 0, 0, 0, 0, t / 0x100, t % 0x100,
               0, 0, 0, 0, 0, 0, 0, 0, 0, number], 24)
  }

  lemma FrameIs(q: NetProto, number: byte, l: Layer)
    ensures OfLayer(l, Frame(q, number)) <==>
      match l
      case Link => true
      case Net(r) => r == q
      case Tran(t) => q == Ip && IpProto(t) == number
  {
    var p := Frame(q, number);
    assert p.data[12] == EtherType(q) / 0x100 && p.data[13] == EtherType(q) % 0x100;
    assert Field(p.data, TYPE_AT, Half) == EtherType(q);
    assert Field(p.data, NET_AT + 6, Half) == 0 && Field(p.data, NET_AT + 9, Byte) == number;
    if l.Tran? && q == Ip {
      TranOverIp(l.tran, p);
    }
  }

  /** The type of a frame of all the layers, which is not l's unless it must be. */
  function TypeFor(ls: set<Layer>, l: Layer): NetProto {
    if NeedsNet(ls, Ip) then Ip
    else if NeedsNet(ls, Arp) then Arp
    else if NeedsNet(ls, Rarp) then Rarp
    else if NeedsNet(ls, Ip6) then Ip6
    else if l == Net(Arp) then Rarp else Arp
  }

  /** Likewise its transport protocol number. */
  ghost function NumberFor(ls: set<Layer>): byte {
    if exists t :: Tran(t) in ls then
      var t :| Tran(t) in ls;
      IpProto(t)
    else 0
  }

  lemma NotImpliedFails(ls: set<Layer>, l: Layer)
    requires !Implied(ls, l)
    ensures exists p: Packet :: OfAll(ls, p) && !OfLayer(l, p)
  {
    var q, n := TypeFor(ls, l), NumberFor(ls);
    var p := Frame(q, n);
    forall m | m in ls ensures OfLayer(m, p) {
      FrameIs(q, n, m);
      match m {
        case Link =>
        case Net(r) => assert NeedsNet(ls, r);
        case Tran(t) => assert NeedsNet(ls, Ip);
      }
    }
    FrameIs(q, n, l);
    assert OfAll(ls, p);
  }

  /** The checks of both operands of a relation let the packet through. */
  predicate Passes(a: AExpr, b: AExpr, p: Packet) {
    GuardMeaning(a, p) == Value(true) && GuardMeaning(b, p) == Value(true)
  }

  lemma PassesAll(a: AExpr, b: AExpr, p: Packet)
    ensures Passes(a, b, p) <==> OfAll(Checked(a) + Checked(b), p)
  {
    CheckIsOfAll(a, p);
    CheckIsOfAll(b, p);
    hide Checked, OfLayer;
  }

  /**
   * The implicit checks, exactly: the generated checks of a relation's operands let through only
   * packets of every layer they index if and only if each of these layers follows from those that
   * are checked.
   */
  lemma ChecksSufficeIff(a: AExpr, b: AExpr)
    ensures (forall p: Packet | Passes(a, b, p) :: OfAll(Indexed(a) + Indexed(b), p))
      <==> (forall l | l in Indexed(a) + Indexed(b) :: Implied(Checked(a) + Checked(b), l))
  {
    hide Passes, Checked, Indexed, Implied, OfLayer;
    var ls, all := Checked(a) + Checked(b), Indexed(a) + Indexed(b);
    forall p: Packet ensures Passes(a, b, p) <==> OfAll(ls, p) {
      PassesAll(a, b, p);
    }
    if l :| l in all && !Implied(ls, l) {
      NotImpliedFails(ls, l);
      var p: Packet :| OfAll(ls, p) && !OfLayer(l, p);
      assert Passes(a, b, p) && !OfAll(all, p);
    } else {
      forall p: Packet | Passes(a, b, p) ensures OfAll(all, p) {
        forall l | l in all ensures OfLayer(l, p) {
          ImpliedHolds(ls, l, p);
        }
      }
    }
  }

  /** An index in a right operand alone, as in `1 + tcp[0] = 0`: its check is lost. */
  lemma RightOperandIsUnchecked()
    ensures exists p: Packet ::
      GuardMeaning(Binary(Add, Num(1), Load(Tran(Tcp), Num(0), 1)), p) == Value(true) && !OfLayer(Tran(Tcp), p)
  {
    var p := Frame(Arp, 0);
    FrameIs(Arp, 0, Tran(Tcp));
  }
}
