/**
 * Ethernet filters in the octets of the packet: where each abbreviation, item and network test looks,
 * and for which numbers, with the offsets and numbers of the protocols' own specifications.
 */
module Octets {
  import opened Words
  import opened Bpf
  import opened FieldTests
  import opened Protocols
  import opened NetPrefix
  import opened Arithmetic

  /** The Ethernet type, in octets 12 and 13. */
  predicate Typed(p: Packet, hi: byte, lo: byte) {
    |p.data| >= 14 && p.data[12] == hi && p.data[13] == lo
  }

  /** Octet at is there and has this value. */
  predicate OctetIs(p: Packet, at: nat, n: nat) {
    |p.data| > at && p.data[at] == n
  }

  lemma NetOnOctets(p: Packet)
    ensures IsNet(Ip, p) == Value(true) <==> Typed(p, 0x08, 0x00)
    ensures IsNet(Arp, p) == Value(true) <==> Typed(p, 0x08, 0x06)
    ensures IsNet(Rarp, p) == Value(true) <==> Typed(p, 0x80, 0x35)
    ensures IsNet(Ip6, p) == Value(true) <==> Typed(p, 0x86, 0xdd)
    ensures forall q :: IsNet(q, p).Reject? <==> |p.data| < 14
  {
  }

  /** IPv4 (RFC 791) has its protocol in the tenth octet of the header. */
  predicate In4(p: Packet, n: nat) {
    Typed(p, 0x08, 0x00) && OctetIs(p, 23, n)
  }

  /** IPv6 (RFC 8200) has its next header in the seventh octet, a fragment header (44) in the first one after. */
  predicate In6(p: Packet, n: nat) {
    Typed(p, 0x86, 0xdd) && (OctetIs(p, 20, n) || (OctetIs(p, 20, 44) && OctetIs(p, 54, n)))
  }

  lemma TranOnOctets(p: Packet)
    ensures IsTran(Icmp, p) == Value(true) <==> In4(p, 1)
    ensures IsTran(Igmp, p) == Value(true) <==> In4(p, 2)
    ensures IsTran(Igrp, p) == Value(true) <==> In4(p, 9)
    ensures IsTran(Vrrp, p) == Value(true) <==> In4(p, 112)
    ensures IsTran(Carp, p) == Value(true) <==> In4(p, 112)
    ensures IsTran(Tcp, p) == Value(true) <==> In4(p, 6) || In6(p, 6)
    ensures IsTran(Udp, p) == Value(true) <==> In4(p, 17) || In6(p, 17)
    ensures IsTran(Sctp, p) == Value(true) <==> In4(p, 132) || In6(p, 132)
    ensures IsTran(Pim, p) == Value(true) <==> In4(p, 103) || In6(p, 103)
  {
    forall q ensures IsTran4(q, p) == Value(true) <==> In4(p, IpProto(q)) {
      Tran4OnOctets(q, p);
    }
    forall q ensures IsTran6(q, p) == Value(true) <==> In6(p, IpProto(q)) {
      Tran6OnOctets(q, p);
    }
    hide IsTran4, IsTran6;
  }

  lemma Tran4OnOctets(q: TranProto, p: Packet)
    ensures IsTran4(q, p) == Value(true) <==> In4(p, IpProto(q))
  {
  }

  lemma Tran6OnOctets(q: TranProto, p: Packet)
    ensures IsTran6(q, p) == Value(true) <==> In6(p, IpProto(q))
  {
  }

  /** Only a first fragment has offset 0: thirteen bits, the low five of octet 20 and octet 21. */
  lemma FragmentOnOctets(p: Packet)
    ensures IsFirstFragment(p) ==
      if |p.data| < 22 then Reject(OutsidePacket) else Value(p.data[20] % 32 == 0 && p.data[21] == 0)
  {
  }

  // ---- Items -----------------------------------------------------------------------------------

  /** The n octets from at on, as a number; or there are not so many. */
  predicate ReadAt(v: Val, p: Packet, at: nat, n: nat) {
    if at + n <= |p.data| then v.Val? && v.v == Base256(p.data[at..at + n]) else v == Fail(OutsidePacket)
  }

  /** link[i:n] counts from the start of the frame, ip[i:n] and its like from behind the Ethernet header. */
  lemma ItemOnOctets(p: Packet, off: u32, n: u32, q: NetProto)
    requires n in {1, 2, 4}
    ensures ReadAt(Item(p, Link, off, SizeOf(n)), p, off, n)
    ensures ReadAt(Item(p, Net(q), off, SizeOf(n)), p, 14 + off, n)
  {
    FieldIsOctets(p.data, off);
    FieldIsOctets(p.data, 14 + off);
    hide Field, Base256;
  }

  /** tcp[i:n] and its like count from behind an IPv4 header of as many words as the low half of octet 14 says. */
  lemma TranItemOnOctets(p: Packet, off: u32, n: u32, q: TranProto)
    requires n in {1, 2, 4}
    ensures |p.data| < 15 ==> Item(p, Tran(q), off, SizeOf(n)) == Fail(OutsidePacket)
    ensures |p.data| >= 15 ==>
      ReadAt(Item(p, Tran(q), off, SizeOf(n)), p, 14 + (p.data[14] % 16 * 4 + off) % 0x1_0000_0000, n)
  {
    if |p.data| >= 15 {
      FieldIsOctets(p.data, 14 + Wrap(p.data[14] % 16 * 4 + off));
    }
    hide Field, Base256;
  }

  // ---- Networks --------------------------------------------------------------------------------

  /** Four octets from at on, masked, are the network number. */
  predicate MaskedAt(p: Packet, at: nat, mask: u32, addr: u32) {
    |p.data| >= at + 4 && And(Base256(p.data[at..at + 4]), mask) == addr
  }

  predicate Chosen(dir: Direction, source: bool, destination: bool) {
    match dir
    case Src => source
    case Dst => destination
    case SrcAndDst => source && destination
    case SrcOrDst => source || destination
  }

  /** The addresses of IPv4 (RFC 791) are octets 12 to 15 and 16 to 19 behind the Ethernet header. */
  predicate Ip4Net(p: Packet, dir: Direction, mask: u32, addr: u32) {
    Typed(p, 0x08, 0x00) && Chosen(dir, MaskedAt(p, 26, mask, addr), MaskedAt(p, 30, mask, addr))
  }

  /** Those of ARP (RFC 826) for IPv4 over Ethernet are octets 14 to 17 and 24 to 27. */
  predicate ArpNet(p: Packet, dir: Direction, mask: u32, addr: u32) {
    Typed(p, 0x08, 0x06) && Chosen(dir, MaskedAt(p, 28, mask, addr), MaskedAt(p, 38, mask, addr))
  }

  /** RARP (RFC 903) has the format of ARP. */
  predicate RarpNet(p: Packet, dir: Direction, mask: u32, addr: u32) {
    Typed(p, 0x80, 0x35) && Chosen(dir, MaskedAt(p, 28, mask, addr), MaskedAt(p, 38, mask, addr))
  }

  lemma MaskedOnOctets(p: Packet, at: nat, mask: u32, addr: u32)
    ensures FieldMasked(p, at, mask, addr) ==
      if |p.data| < at + 4 then Reject(OutsidePacket) else Value(MaskedAt(p, at, mask, addr))
  {
    FieldIsOctets(p.data, at);
    hide Field, Base256, And;
  }

  /** A network test is true exactly of the packets whose type and addresses it asks for. */
  lemma NetworkOnOctets(p: Packet, dir: Direction, mask: u32, addr: u32)
    ensures NetIs(p, Only(Ip), dir, mask, addr) == Value(true) <==> Ip4Net(p, dir, mask, addr)
    ensures NetIs(p, Only(Arp), dir, mask, addr) == Value(true) <==> ArpNet(p, dir, mask, addr)
    ensures NetIs(p, Only(Rarp), dir, mask, addr) == Value(true) <==> RarpNet(p, dir, mask, addr)
    ensures NetIs(p, Qualifier.Any, dir, mask, addr) == Value(true) <==>
      Ip4Net(p, dir, mask, addr) || ArpNet(p, dir, mask, addr) || RarpNet(p, dir, mask, addr)
  {
    NetOnOctets(p);
    MaskedOnOctets(p, 26, mask, addr);
    MaskedOnOctets(p, 30, mask, addr);
    MaskedOnOctets(p, 28, mask, addr);
    MaskedOnOctets(p, 38, mask, addr);
    hide MaskedAt, FieldMasked, IsNet;
  }

  // ---- Numbers with dots -----------------------------------------------------------------------

  lemma AndStep(a: nat, b: nat)
    ensures And(a, b) == 2 * And(a / 2, b / 2) + if a % 2 == 1 && b % 2 == 1 then 1 else 0
  {
    if a == 0 || b == 0 {
      assert And(a / 2, b / 2) == 0;
    }
  }

  /** One bit more. */
  lemma AndDoubled(u: nat, v: nat, b: nat, d: nat, u': nat, v': nat, high: nat)
    requires u == 2 * (u' - b / 2) + b && v == 2 * (v' - d / 2) + d && And(u', v') == high + And(b / 2, d / 2)
    ensures And(u, v) == 2 * high + And(b, d)
  {
    hide And;
    AndStep(u, v);
    AndStep(b, d);
    assert u / 2 == u' && v / 2 == v' && u % 2 == b % 2 && v % 2 == d % 2;
  }

  /** k doublings. */
  function Scaled(a: nat, k: nat): nat {
    if k == 0 then a else 2 * Scaled(a, k - 1)
  }

  /** AND works on the low k bits and on the rest of its operands separately. */
  lemma {:induction false} AndSplit(u: nat, v: nat, a: nat, b: nat, c: nat, d: nat, k: nat)
    requires u == Scaled(a, k) + b && v == Scaled(c, k) + d && b < Pow2(k) && d < Pow2(k)
    ensures And(u, v) == Scaled(And(a, c), k) + And(b, d)
    decreases k
  {
    if k == 0 {
      assert And(b, d) == 0;
    } else {
      ScaledOnce(a, k);
      ScaledOnce(c, k);
      ScaledOnce(And(a, c), k);
      hide And, Pow2, Scaled;
      HalfBelow(b, k);
      HalfBelow(d, k);
      var u', v' := Scaled(a, k - 1) + b / 2, Scaled(c, k - 1) + d / 2;
      AndSplit(u', v', a, b / 2, c, d / 2, k - 1);
      AndDoubled(u, v, b, d, u', v', Scaled(And(a, c), k - 1));
    }
  }

  lemma ScaledOnce(a: nat, k: nat)
    requires k > 0
    ensures Scaled(a, k) == 2 * Scaled(a, k - 1)
  {
  }

  lemma ScaledBy8(a: nat)
    ensures Scaled(a, 8) == 0x100 * a
  {
    assert Scaled(a, 1) == 2 * a;
    assert Scaled(a, 2) == 4 * a;
    assert Scaled(a, 4) == 16 * a;
    assert Scaled(a, 6) == 64 * a;
  }

  lemma AndOctet(u: nat, v: nat, a: nat, b: byte, c: nat, d: byte)
    requires u == 0x100 * a + b && v == 0x100 * c + d
    ensures And(u, v) == 0x100 * And(a, c) + And(b, d)
  {
    assert Pow2(8) == 0x100;
    hide And, Pow2, Scaled;
    ScaledBy8(a);
    ScaledBy8(c);
    ScaledBy8(And(a, c));
    AndSplit(u, v, a, b, c, d, 8);
  }

  /** Octet for octet. */
  predicate MaskedBy(x: seq<byte>, m: seq<byte>, n: seq<byte>)
    requires |x| == |m| == |n|
  {
    forall i | 0 <= i < |x| :: And(x[i], m[i]) == n[i]
  }

  lemma {:induction false} MaskOctets(x: seq<byte>, m: seq<byte>, n: seq<byte>)
    requires |x| == |m| == |n|
    ensures And(Base256(x), Base256(m)) == Base256(n) <==> MaskedBy(x, m, n)
  {
    if x != [] {
      var k := |x| - 1;
      var high, low := And(Base256(x[..k]), Base256(m[..k])), And(x[k], m[k]);
      hide And, Base256, MaskedBy;
      AndOfNumbers(x, m, n);
      MaskOctets(x[..k], m[..k], n[..k]);
      MaskedByMore(x, m, n);
      SameDigits(high, low, Base256(n[..k]), n[k]);
    } else {
      assert And(0, 0) == 0;
    }
  }

  lemma MaskedByMore(x: seq<byte>, m: seq<byte>, n: seq<byte>)
    requires |x| == |m| == |n| > 0
    ensures var k := |x| - 1;
      MaskedBy(x, m, n) <==> MaskedBy(x[..k], m[..k], n[..k]) && And(x[k], m[k]) == n[k]
  {
    hide And;
    var k := |x| - 1;
    if MaskedBy(x[..k], m[..k], n[..k]) {
      forall i | 0 <= i < k ensures And(x[i], m[i]) == n[i] {
        assert x[..k][i] == x[i] && m[..k][i] == m[i] && n[..k][i] == n[i];
      }
    }
  }

  lemma AndOfNumbers(x: seq<byte>, m: seq<byte>, n: seq<byte>)
    requires |x| == |m| == |n| > 0
    ensures var k := |x| - 1;
      && Base256(n) == 0x100 * Base256(n[..k]) + n[k]
      && And(Base256(x), Base256(m)) == 0x100 * And(Base256(x[..k]), Base256(m[..k])) + And(x[k], m[k])
  {
    var k := |x| - 1;
    assert Base256(x) == 0x100 * Base256(x[..k]) + x[k] && Base256(m) == 0x100 * Base256(m[..k]) + m[k];
    hide And;
    AndOctet(Base256(x), Base256(m), Base256(x[..k]), x[k], Base256(m[..k]), m[k]);
  }

  lemma SameDigits(a: nat, b: byte, c: nat, d: byte)
    ensures 0x100 * a + b == 0x100 * c + d <==> a == c && b == d
  {
  }

  /** The components again, with the dots between them. */
  function WithDots(cs: seq<string>): string
    requires |cs| >= 1
  {
    if |cs| == 1 then cs[0] else cs[0] + "." + WithDots(cs[1..])
  }

  /** Taking a number apart loses nothing, and no component has a dot. */
  lemma {:induction false} ComponentsJoin(s: string)
    ensures WithDots(Components(s)) == s && forall c | c in Components(s) :: '.' !in c
    decreases s
  {
    if s != [] {
      ComponentsJoin(s[1..]);
      var cs, ds := Components(s[1..]), Components(s);
      assert ds[1..] == if s[0] == '.' then cs else cs[1..];
      if s[0] == '.' {
        assert WithDots(ds) == "." + s[1..];
      } else if |cs| == 1 {
        assert WithDots(ds) == [s[0]] + s[1..];
      } else {
        assert WithDots(ds) == [s[0]] + WithDots(cs);
      }
    }
  }

  lemma {:induction false} ComponentChars(s: string)
    ensures forall c, x | c in Components(s) && x in c :: x in s
    decreases s
  {
    if s != [] {
      ComponentChars(s[1..]);
      var cs := Components(s[1..]);
      forall c, x | c in Components(s) && x in c ensures x in s {
        if c !in cs && s[0] != '.' {
          assert c == [s[0]] + cs[0];
        }
      }
    }
  }

  /** The octets of a number: its components, and zeros at the low end. */
  ghost predicate AreOctetsOf(o: seq<byte>, s: string) {
    |o| == 4 && forall i | 0 <= i < 4 :: o[i] == if i < |Components(s)| then Decimal(Components(s)[i]) else 0
  }

  lemma HasOctets(s: string) returns (o: seq<byte>)
    requires Scanned(s) && NetPrefix.Octets(Components(s))
    ensures AreOctetsOf(o, s)
  {
    var cs := Components(s);
    ComponentsJoin(s);
    ComponentChars(s);
    forall c | c in cs ensures 0 <= Decimal(c) <= 255 {
      DecimalGrows(c, 0);
    }
    o := seq(4, i requires 0 <= i < 4 => if i < |cs| then Decimal(cs[i]) else 0);
  }

  lemma {:induction false} Base256Fits(o: seq<byte>)
    requires |o| <= 4
    ensures Base256(o) < 0x1_0000_0000 && (|o| < 4 ==> Base256(o) < 0x100_0000)
    ensures (|o| < 3 ==> Base256(o) < 0x1_0000) && (|o| < 2 ==> Base256(o) < 0x100)
    decreases |o|
  {
    if o != [] {
      Base256Fits(o[..|o| - 1]);
    }
  }

  lemma {:induction false} JoinedOctets(cs: seq<string>, o: seq<byte>)
    requires |cs| == |o| <= 4 && forall i | 0 <= i < |o| :: o[i] == Decimal(cs[i])
    ensures Joined(cs) == Base256(o)
    decreases |o|
  {
    if o != [] {
      JoinedOctets(cs[..|cs| - 1], o[..|o| - 1]);
      Base256Fits(o);
      ModUnique(Base256(o), WORD, 0, Base256(o));
    }
  }

  /** Zeros at the low end. */
  lemma {:induction false} ZeroTail(o: seq<byte>, k: nat, n: nat)
    requires |o| == k + n && forall i | k <= i < |o| :: o[i] == 0
    ensures Base256(o) == Base256(o[..k]) * Pow2(8 * n)
    decreases n
  {
    if n == 0 {
      assert o[..k] == o;
    } else {
      var init := o[..|o| - 1];
      assert init[..k] == o[..k];
      ZeroTail(init, k, n - 1);
      Pow2Sum(8, 8 * (n - 1));
      assert Pow2(8) == 0x100;
      hide Base256, Pow2;
      TimesOctet(Base256(o[..k]), Pow2(8 * (n - 1)));
    }
  }

  lemma TimesOctet(x: nat, p: nat)
    ensures 0x100 * (x * p) == x * (0x100 * p)
  {
  }

  /** A number is moved up until its first component is the highest octet. */
  lemma PromotedOctets(s: string, o: seq<byte>)
    requires Scanned(s) && AreOctetsOf(o, s)
    ensures Promoted(s) == Base256(o)
  {
    var cs := Components(s);
    hide Components, Decimal, Pow2, Base256;
    JoinedOctets(cs, o[..|cs|]);
    ZeroTail(o, |cs|, 4 - |cs|);
    Base256Fits(o);
    ModUnique(Base256(o), WORD, 0, Base256(o));
  }

  /** An address in the packet, masked with one dotted number, is another: octet for octet. */
  lemma DottedOnOctets(p: Packet, at: nat, m: string, mo: seq<byte>, s: string, so: seq<byte>)
    requires Scanned(m) && AreOctetsOf(mo, m) && Scanned(s) && AreOctetsOf(so, s)
    ensures MaskedAt(p, at, Promoted(m), Promoted(s)) <==>
      |p.data| >= at + 4 && MaskedBy(p.data[at..at + 4], mo, so)
  {
    PromotedOctets(m, mo);
    PromotedOctets(s, so);
    hide Promoted, And, Base256, MaskedBy;
    if |p.data| >= at + 4 {
      MaskOctets(p.data[at..at + 4], mo, so);
    }
  }

  function Ones(k: nat): seq<byte>
    requires k <= 4
  {
    [if k > 0 then 255 else 0, if k > 1 then 255 else 0, if k > 2 then 255 else 0, if k > 3 then 255 else 0]
  }

  /** A prefix of so many whole octets. */
  lemma MaskOfOctets(k: nat)
    requires k <= 4
    ensures MaskOf(8 * k) == Base256(Ones(k))
  {
    var o := Ones(k);
    assert o[..4] == o;
    Base256Takes(o, 4);
    Base256Takes(o, 3);
    Base256Takes(o, 2);
    Base256Takes(o, 1);
    assert Pow2(8) == 0x100 && Pow2(16) == 0x1_0000 && Pow2(24) == 0x100_0000 by {
      assert Pow2(12) == 0x1000 && Pow2(20) == 0x10_0000;
    }
    Pow2At32();
    hide Pow2, Base256;
  }

  lemma AndOnes(x: byte)
    ensures And(x, 255) == x && And(x, 0) == 0
  {
    assert Pow2(8) == 0x100 && And(x, 0) == 0;
    hide And, Pow2;
    AndLowMask(x, 8);
    ModUnique(x, Pow2(8), 0, x);
  }

  lemma OnesSelect(x: seq<byte>, k: nat, o: seq<byte>)
    requires |x| == |o| == 4 && k <= 4 && forall i | k <= i < 4 :: o[i] == 0
    ensures MaskedBy(x, Ones(k), o) <==> forall i | 0 <= i < k :: x[i] == o[i]
  {
    hide And;
    forall i | 0 <= i < 4 ensures And(x[i], 255) == x[i] && And(x[i], 0) == 0 {
      AndOnes(x[i]);
    }
  }

  /** An address in the packet has these components as its first octets. */
  ghost predicate StartsWith(p: Packet, at: nat, cs: seq<string>) {
    |p.data| >= at + 4 && forall i | 0 <= i < |cs| && i < 4 :: p.data[at + i] == Decimal(cs[i])
  }

  lemma PrefixOnOctets(p: Packet, at: nat, s: string)
    requires Scanned(s) && NetPrefix.Octets(Components(s))
    ensures MaskedAt(p, at, MaskOf(8 * |Components(s)|), Promoted(s)) <==> StartsWith(p, at, Components(s))
  {
    var o := HasOctets(s);
    var k := |Components(s)|;
    PromotedOctets(s, o);
    MaskOfOctets(k);
    hide And, Base256, Decimal, Components, Promoted, MaskOf, MaskedBy;
    if |p.data| >= at + 4 {
      var x := p.data[at..at + 4];
      MaskOctets(x, Ones(k), o);
      OnesSelect(x, k, o);
      assert forall i | 0 <= i < 4 :: x[i] == p.data[at + i];
    }
  }

  /**
   * `ip net` of a number of one to four components, with a prefix of as many octets: the filter is
   * allowed, and true exactly of IPv4 packets whose address starts with these octets.
   */
  lemma WholeOctets(p: Packet, s: string, dir: Direction)
    requires Scanned(s) && NetPrefix.Octets(Components(s))
    ensures var n := RawNetwork(s, Length(8 * |Components(s)|), Only(Ip), dir);
      var cs := Components(s);
      && Admitted(n)
      && (IsIn(n, p) == Value(true) <==>
          Typed(p, 0x08, 0x00) && Chosen(dir, StartsWith(p, 26, cs), StartsWith(p, 30, cs)))
  {
    var k := |Components(s)|;
    NetworkOnOctets(p, dir, MaskOf(8 * k), Promoted(s));
    PrefixOnOctets(p, 26, s);
    PrefixOnOctets(p, 30, s);
    PromotedIsGood(s);
    hide MaskOf, Promoted, Components, StartsWith, MaskedAt, NetIs, NetPrefix.Octets, Decimal;
  }

  lemma PromotedIsGood(s: string)
    requires Scanned(s) && NetPrefix.Octets(Components(s))
    ensures GoodNetwork(s, Length(8 * |Components(s)|))
  {
    var o := HasOctets(s);
    var k := |Components(s)|;
    TailOfOctets(s, o);
    hide And, Base256, Components, Decimal, Promoted, MaskOf, AreOctetsOf, NetPrefix.Octets, GoodNetwork, Ones;
    PromotedOctets(s, o);
    MaskOfOctets(k);
    var outside := WORD - 1 - MaskOf(8 * k);
    NoneOutside(o, Ones(k), Promoted(s), outside);
    OnesLeaveTail(o, k);
    GoodIfInside(s, 8 * k, outside);
  }

  lemma GoodIfInside(s: string, length: nat, outside: nat)
    requires Scanned(s) && NetPrefix.Octets(Components(s)) && length <= 32
    requires outside == WORD - 1 - MaskOf(length) && And(Promoted(s), outside) == 0
    ensures GoodNetwork(s, Length(length))
  {
    hide Promoted, And, MaskOf, Components, NetPrefix.Octets;
  }

  lemma TailOfOctets(s: string, o: seq<byte>)
    requires AreOctetsOf(o, s)
    ensures |o| == 4 && forall i | |Components(s)| <= i < 4 :: o[i] == 0
  {
  }

  lemma OnesLeaveTail(o: seq<byte>, k: nat)
    requires |o| == 4 && k <= 4 && forall i | k <= i < 4 :: o[i] == 0
    ensures forall i | 0 <= i < 4 :: And(o[i], 255 - Ones(k)[i]) == 0
  {
    forall i | 0 <= i < 4 ensures And(o[i], 0) == 0 {
      AndOnes(o[i]);
    }
    assert And(0, 255) == 0;
    hide And;
  }

  /** For a prefix of any length: the first bits of the address are those of the network number. */
  lemma PrefixBits(p: Packet, at: nat, addr: u32, length: nat)
    requires length <= 32 && addr % Pow2(32 - length) == 0
    ensures MaskedAt(p, at, MaskOf(length), addr) <==>
      |p.data| >= at + 4 && Base256(p.data[at..at + 4]) / Pow2(32 - length) == addr / Pow2(32 - length)
  {
    hide And, Pow2, MaskOf;
    if |p.data| >= at + 4 {
      FieldIsOctets(p.data, at);
      MaskComparesPrefix(Field(p.data, at, Word), addr, length);
    }
  }

  function Inverted(o: seq<byte>): seq<byte> {
    seq(|o|, i requires 0 <= i < |o| => 255 - o[i])
  }

  lemma {:induction false} InvertedIs(o: seq<byte>)
    ensures Base256(Inverted(o)) + Base256(o) == Pow2(8 * |o|) - 1
    decreases |o|
  {
    if o != [] {
      var k := |o| - 1;
      assert Inverted(o)[..k] == Inverted(o[..k]);
      InvertedIs(o[..k]);
      Pow2Sum(8, 8 * k);
      assert Pow2(8) == 0x100;
    }
  }

  lemma InvertedWord(o: seq<byte>)
    requires |o| == 4
    ensures Base256(Inverted(o)) == WORD - 1 - Base256(o)
  {
    hide Base256, Pow2;
    InvertedIs(o);
    Pow2At32();
  }

  lemma {:induction false} ZerosAreZero(o: seq<byte>)
    requires forall i | 0 <= i < |o| :: o[i] == 0
    ensures Base256(o) == 0
    decreases |o|
  {
    if o != [] {
      ZerosAreZero(o[..|o| - 1]);
    }
  }

  /** A word has no bit outside a mask exactly if no octet of it has. */
  lemma NoneOutside(so: seq<byte>, mo: seq<byte>, word: nat, outside: nat)
    requires |so| == |mo| == 4 && word == Base256(so) && outside == WORD - 1 - Base256(mo)
    ensures And(word, outside) == 0 <==> forall i | 0 <= i < 4 :: And(so[i], 255 - mo[i]) == 0
  {
    var zeros: seq<byte> := [0, 0, 0, 0];
    assert MaskedBy(so, Inverted(mo), zeros) <==> forall i | 0 <= i < 4 :: And(so[i], 255 - mo[i]) == 0 by {
      hide And;
    }
    hide And, Base256, MaskedBy, Inverted;
    InvertedWord(mo);
    ZerosAreZero(zeros);
    MaskOctets(so, Inverted(mo), zeros);
  }

  /** With a dotted mask, the demand is that no octet of the number has a bit outside that of the mask. */
  lemma DottedIsGood(s: string, so: seq<byte>, m: string, mo: seq<byte>)
    requires Scanned(s) && AreOctetsOf(so, s) && Scanned(m) && AreOctetsOf(mo, m)
    requires NetPrefix.Octets(Components(s)) && NetPrefix.Octets(Components(m))
    ensures GoodNetwork(s, Dotted(m)) <==> forall i | 0 <= i < 4 :: And(so[i], 255 - mo[i]) == 0
  {
    hide Promoted, And, Base256, Components, NetPrefix.Octets, Decimal;
    PromotedOctets(s, so);
    PromotedOctets(m, mo);
    NoneOutside(so, mo, Promoted(s), WORD - 1 - MaskIs(Dotted(m)));
  }

  // ---- Addresses as they are written -----------------------------------------------------------

  /** A number in decimal digits. */
  function DigitsOf(n: nat): string {
    if n < 10 then [Digit(n)] else DigitsOf(n / 10) + [Digit(n % 10)]
  }

  function Digit(n: nat): char
    requires n < 10
  {
    "0123456789"[n]
  }

  lemma {:induction false} DecimalReads(n: nat)
    ensures Decimal(DigitsOf(n)) == n
    decreases n
  {
    assert forall k: nat | k < 10 :: Digit(k) as int == '0' as int + k;
    if n < 10 {
      assert Decimal([Digit(n)]) == Decimal([]) * 10 + n;
    } else {
      DecimalReads(n / 10);
      var c := DigitsOf(n);
      assert c[..|c| - 1] == DigitsOf(n / 10);
    }
  }

  lemma {:induction false} DigitsAreLexed(n: nat)
    ensures forall x | x in DigitsOf(n) :: x >= '0'
    decreases n
  {
    if n >= 10 {
      DigitsAreLexed(n / 10);
    }
  }

  /** Numbers between dots are the components. */
  lemma {:induction false} ComponentsOfDots(cs: seq<string>)
    requires |cs| >= 1 && forall c | c in cs :: '.' !in c
    ensures Components(WithDots(cs)) == cs
    decreases |cs|
  {
    var s, c := WithDots(cs), cs[0];
    if |cs| > 1 {
      ComponentsOfDots(cs[1..]);
      assert s[..|c|] == c && s[|c| + 1..] == WithDots(cs[1..]);
    } else {
      assert s[..|c|] == c;
    }
    ComponentEnds(s, |c|);
  }

  lemma {:induction false} DotsAreLexed(cs: seq<string>)
    requires |cs| >= 1 && forall c, x | c in cs && x in c :: x >= '0'
    ensures Lexed(WithDots(cs))
    decreases |cs|
  {
    assert cs[0] in cs;
    if |cs| > 1 {
      DotsAreLexed(cs[1..]);
    }
  }

  /** Octets as they are written, with dots. */
  function Written(o: seq<byte>): string
    requires |o| >= 1
  {
    WithDots(seq(|o|, i requires 0 <= i < |o| => DigitsOf(o[i])))
  }

  lemma WrittenIs(o: seq<byte>)
    requires |o| >= 1
    ensures var cs := Components(Written(o));
      |cs| == |o| && Lexed(Written(o)) && forall i | 0 <= i < |o| :: Decimal(cs[i]) == o[i]
  {
    var cs := seq(|o|, i requires 0 <= i < |o| => DigitsOf(o[i]));
    hide WithDots, DigitsOf, Decimal;
    forall i | 0 <= i < |o| ensures Decimal(cs[i]) == o[i] && forall x | x in cs[i] :: x >= '0' {
      DecimalReads(o[i]);
      DigitsAreLexed(o[i]);
    }
    ComponentsOfDots(cs);
    DotsAreLexed(cs);
  }

  /** An address in the packet, all of it captured, starts with these octets. */
  predicate OctetsAt(p: Packet, at: nat, o: seq<byte>)
    requires |o| <= 4
  {
    |p.data| >= at + 4 && p.data[at..at + |o|] == o
  }

  /**
   * `ip src net 192.168.1.2/32`, `ip net 10/8` and their like, with a prefix of as many octets as are
   * written: allowed, and true exactly of IPv4 packets whose source address, octets 26 to 29, or
   * destination address, octets 30 to 33, starts with these octets.
   */
  lemma AddressOnOctets(p: Packet, o: seq<byte>, dir: Direction)
    requires 1 <= |o| <= 4
    ensures Scanned(Written(o))
    ensures var n := RawNetwork(Written(o), Length(8 * |o|), Only(Ip), dir);
      && Admitted(n)
      && (IsIn(n, p) == Value(true) <==>
          Typed(p, 0x08, 0x00) && Chosen(dir, OctetsAt(p, 26, o), OctetsAt(p, 30, o)))
  {
    var s := Written(o);
    WrittenIs(o);
    hide Decimal, Written, Components, Admitted, IsIn, StartsWith, OctetsAt, Typed;
    OctetsWritten(s, o);
    WholeOctets(p, s, dir);
    SameStart(p, 26, Components(s), o);
    SameStart(p, 30, Components(s), o);
  }

  lemma OctetsWritten(s: string, o: seq<byte>)
    requires |Components(s)| == |o| && forall i | 0 <= i < |o| :: Decimal(Components(s)[i]) == o[i]
    ensures NetPrefix.Octets(Components(s))
  {
  }

  lemma SameStart(p: Packet, at: nat, cs: seq<string>, o: seq<byte>)
    requires |cs| == |o| <= 4 && forall i | 0 <= i < |o| :: Decimal(cs[i]) == o[i]
    ensures StartsWith(p, at, cs) <==> OctetsAt(p, at, o)
  {
    hide Decimal;
    if |p.data| >= at + 4 {
      var x := p.data[at..at + |o|];
      assert forall i | 0 <= i < |o| :: x[i] == p.data[at + i];
    }
  }
}
