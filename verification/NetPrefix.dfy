/** IPv4 network filters on Ethernet: dotted numbers, masks, and what the generated tests accept. */
module NetPrefix {
  import opened Words
  import opened Bpf
  import opened Conditions
  import opened BlockGraph
  import opened Codegen
  import opened FieldTests
  import opened Protocols

  // ---- Dotted numbers --------------------------------------------------------------------------

  /** The scanner only lets through dots and characters that do not sort before '0'. */
  predicate Lexed(s: string) {
    forall c | c in s :: c == '.' || c >= '0'
  }

  /** The parts between the dots. */
  function Components(s: string): (cs: seq<string>)
    ensures |cs| >= 1
  {
    if s == [] then [[]]
    else
      var cs := Components(s[1..]);
      if s[0] == '.' then [[]] + cs else [[s[0]] + cs[0]] + cs[1..]
  }

  /** A component as a decimal number. */
  function Decimal(c: string): int {
    if c == [] then 0 else Decimal(c[..|c| - 1]) * 10 + (c[|c| - 1] as int - '0' as int)
  }

  predicate Octets(cs: seq<string>) {
    forall c | c in cs :: Decimal(c) <= 255
  }

  /** The components as octets, first one highest, in a 32-bit word. */
  function Joined(cs: seq<string>): u32 {
    if cs == [] then 0 else Wrap(Joined(cs[..|cs| - 1]) * 0x100 + Decimal(cs[|cs| - 1]))
  }

  lemma {:induction false} ComponentEnds(s: string, k: nat)
    requires k <= |s| && '.' !in s[..k] && (k < |s| ==> s[k] == '.')
    ensures Components(s) == if k < |s| then [s[..k]] + Components(s[k + 1..]) else [s]
    decreases k
  {
    if k > 0 {
      var t := s[1..];
      assert t[..k - 1] == s[..k][1..] && s[0] == s[..k][0];
      ComponentEnds(t, k - 1);
      assert [s[0]] + t[..k - 1] == s[..k];
      if k < |s| {
        assert t[k..] == s[k + 1..];
      } else {
        assert [s[0]] + t == s;
      }
    }
  }

  /** A number that is already above 25 when another digit follows ends above 255. */
  lemma {:induction false} DecimalGrows(c: string, k: nat)
    requires k <= |c| && forall x | x in c :: x >= '0'
    ensures Decimal(c) >= Decimal(c[..k]) >= 0
    ensures k < |c| ==> Decimal(c) >= Decimal(c[..k]) * 10
    decreases |c|
  {
    if c != [] {
      var d := c[..|c| - 1];
      assert c[|c| - 1] in c && forall x | x in d :: x in c;
      DecimalGrows(d, if k < |c| then k else k - 1);
      if k < |c| {
        assert d[..k] == c[..k];
      } else {
        assert c[..k] == c && d[..k - 1] == d;
      }
    } else {
      assert c[..k] == c;
    }
  }

  lemma ShiftedByte(a: u32, n: nat)
    requires n < 0x100
    ensures Wrap(a * 0x100 + n) == (a % 0x100_0000) * 0x100 + n
  {
    var q, high := a / 0x100_0000, a % 0x100_0000;
    assert a * 0x100 + n == WORD * q + (high * 0x100 + n);
    ModUnique(a * 0x100 + n, WORD, q, high * 0x100 + n);
  }

  lemma OrLowByte(a: u32, n: nat)
    requires n < 0x100
    ensures Or32(Wrap(a * 0x100), And32(n, 0xff)) == Wrap(a * 0x100 + n)
  {
    hide And, Or;
    assert Pow2(8) == 0x100;
    AndLowMask(n, 8);
    ShiftedByte(a, 0);
    ShiftedByte(a, n);
    OrDisjoint(a % 0x100_0000, n, 8);
  }

  /** OR of a multiple of a power of two with something smaller is their sum. */
  lemma {:induction false} OrDisjoint(q: nat, n: nat, k: nat)
    requires n < Pow2(k)
    ensures Or(q * Pow2(k), n) == q * Pow2(k) + n
    decreases k
  {
    if k == 0 {
      OrZero(q);
    } else if q > 0 {
      var half := q * Pow2(k - 1);
      assert q * Pow2(k) == 2 * half;
      assert half > 0;
      OrDisjoint(q, n / 2, k - 1);
    }
  }

  lemma {:induction false} OrZero(a: nat)
    ensures Or(a, 0) == a
    decreases a
  {
    if a > 0 {
      OrZero(a / 2);
    }
  }

  /** One more character of a number. */
  lemma DecimalMore(s: string, start: nat, i: nat)
    requires start <= i < |s|
    ensures Decimal(s[start..i + 1]) == Decimal(s[start..i]) * 10 + (s[i] as int - '0' as int)
  {
    var c := s[start..i + 1];
    assert c[..|c| - 1] == s[start..i] && c[|c| - 1] == s[i];
  }

  lemma DotIsLater(s: string, start: nat, i: nat)
    requires start <= i < |s| && s[i] != '.' && '.' !in s[start..i]
    ensures NextDot(s[start..]) > i - start
  {
    var t := s[start..];
    assert t[i - start] == s[i];
    assert forall j | 0 <= j < i - start :: t[j] == s[start..i][j] && s[start..i][j] in s[start..i];
  }

  /** The component that starts at start goes on after a prefix above 25. */
  lemma TooLarge(s: string, start: nat, i: nat)
    requires Lexed(s) && start <= i < |s| && s[i] != '.' && '.' !in s[start..i] && Decimal(s[start..i]) > 25
    ensures !Octets(Components(s[start..]))
  {
    hide Decimal, NextDot;
    var t := s[start..];
    var k := NextDot(t);
    var c := t[..k];
    ComponentEnds(t, k);
    DotIsLater(s, start, i);
    assert c[..i - start] == s[start..i];
    assert forall x | x in c :: x in s && x != '.';
    DecimalGrows(c, i - start);
    assert Components(t)[0] == c;
  }

  lemma OctetsOfSum(xs: seq<string>, ys: seq<string>)
    ensures Octets(xs + ys) <==> Octets(xs) && Octets(ys)
  {
    assert forall x | x in xs :: x in xs + ys;
    assert forall y | y in ys :: y in xs + ys;
  }

  /** The first component of what is left ends at i; the rest follows its dot. */
  lemma NextComponent(s: string, start: nat, i: nat)
    requires start <= i <= |s| && '.' !in s[start..i] && (i < |s| ==> s[i] == '.')
    ensures Components(s[start..]) == [s[start..i]] + if i < |s| then Components(s[i + 1..]) else []
  {
    var t := s[start..];
    assert t[..i - start] == s[start..i];
    ComponentEnds(t, i - start);
    if i < |s| {
      assert t[i - start + 1..] == s[i + 1..];
    } else {
      assert t == s[start..i];
    }
  }

  lemma JoinedMore(done: seq<string>, c: string)
    ensures Joined(done + [c]) == Wrap(Joined(done) * 0x100 + Decimal(c))
  {
    hide Wrap, Decimal;
    var cs := done + [c];
    assert cs[..|cs| - 1] == done && cs[|cs| - 1] == c;
  }

  /**
   * __pcap_atoin: fails exactly if a component is above 255; otherwise 8 bits for each component,
   * which are its octets.
   */
  method Atoin(s: string) returns (len: int, addr: u32)
    requires Lexed(s)
    ensures len == -1 <==> !Octets(Components(s))
    ensures len != -1 ==> len == 8 * |Components(s)| && addr == Joined(Components(s))
  {
    hide Components, Octets, Joined, Decimal, Or32, And32;
    addr, len := 0, 0;
    var i := 0;
    ghost var done: seq<string> := [];
    StartsWhole(s);
    while true
      invariant i <= |s| && Components(s) == done + Components(s[i..])
      invariant Octets(done) && addr == Joined(done) && len == 8 * |done|
      decreases |s| - i
    {
      OctetsOfSum(done, Components(s[i..]));
      ghost var start := i;
      var n: int;
      n, i := ReadNumber(s, i);
      if n == -1 {
        return -1, addr;
      }
      NextComponent(s, start, i);
      ghost var c := s[start..i];
      ghost var rest := if i < |s| then Components(s[i + 1..]) else [];
      assert done + ([c] + rest) == (done + [c]) + rest;
      OneOctet(c, rest);
      if n > 255 {
        return -1, addr;
      }
      OrLowByte(addr, n);
      addr := Or32(Wrap(addr * 0x100), And32(n, 0xff));
      len := len + 8;
      JoinedMore(done, c);
      OctetsOfSum(done, [c]);
      done := done + [c];
      if i == |s| {
        assert done + rest == done;
        return;
      }
      i := i + 1;
    }
  }

  lemma StartsWhole(s: string)
    ensures s[0..] == s && [] + Components(s) == Components(s) && Octets([]) && Joined([]) == 0
  {
  }

  lemma OneOctet(c: string, rest: seq<string>)
    ensures Octets([c]) <==> Decimal(c) <= 255
    ensures Decimal(c) > 255 ==> !Octets([c] + rest)
  {
    assert [c][0] == c && ([c] + rest)[0] == c;
  }

  /** The inner loop: one component, given up on once it must end above 255. */
  method ReadNumber(s: string, start: nat) returns (n: int, i: nat)
    requires Lexed(s) && start <= |s|
    ensures n == -1 ==> !Octets(Components(s[start..]))
    ensures n != -1 ==> n >= 0 && start <= i <= |s| && n == Decimal(s[start..i])
    ensures n != -1 ==> '.' !in s[start..i] && (i < |s| ==> s[i] == '.')
  {
    hide Components, Octets;
    n, i := 0, start;
    while i < |s| && s[i] != '.'
      invariant start <= i <= |s| && '.' !in s[start..i] && n == Decimal(s[start..i]) >= 0
    {
      if n > 25 {
        TooLarge(s, start, i);
        return -1, i;
      }
      assert s[i] in s;
      DecimalMore(s, start, i);
      n := n * 10 + (s[i] as int - '0' as int);
      i := i + 1;
    }
  }

  function NextDot(t: string): (k: nat)
    ensures k <= |t| && '.' !in t[..k] && (k < |t| ==> t[k] == '.')
  {
    if t == [] || t[0] == '.' then 0
    else
      var k := 1 + NextDot(t[1..]);
      assert t[..k] == [t[0]] + t[1..][..k - 1];
      k
  }

  // ---- Masks -----------------------------------------------------------------------------------

  /** 0xffffffff << (32 - length), and 0 for length 0. */
  function MaskOf(length: nat): u32
    requires length <= 32
  {
    Pow2At32();
    Pow2Order(32 - length, 32);
    WORD - Pow2(32 - length)
  }

  lemma {:induction false} Pow2Order(a: nat, b: nat)
    requires a <= b
    ensures Pow2(a) <= Pow2(b)
    decreases b
  {
    if a < b {
      Pow2Order(a, b - 1);
    }
  }

  lemma {:induction false} Pow2Sum(a: nat, b: nat)
    ensures Pow2(a + b) == Pow2(a) * Pow2(b)
    decreases a
  {
    if a > 0 {
      Pow2Sum(a - 1, b);
    }
  }

  /** A mask of the high bits, from bit k up to bit w, takes away the remainder modulo 2^k. */
  lemma {:induction false} AndHighMask(x: nat, k: nat, w: nat)
    requires k <= w && x < Pow2(w)
    ensures Pow2(k) <= Pow2(w) && And(x, Pow2(w) - Pow2(k)) == x - x % Pow2(k)
    decreases k
  {
    hide And, Pow2;
    Pow2Order(k, w);
    if k == 0 {
      FullMask(x, w);
    } else if x == 0 {
      MaskOfZero(k, w);
    } else {
      HalfBelow(x, w);
      AndHighMask(x / 2, k - 1, w - 1);
      HighMaskStep(x, k, w);
    }
  }

  lemma HalfBelow(x: nat, w: nat)
    requires w > 0 && x < Pow2(w)
    ensures x / 2 < Pow2(w - 1)
  {
    var p := Pow2(w - 1);
    assert Pow2(w) == 2 * p;
  }

  lemma FullMask(x: nat, w: nat)
    requires x < Pow2(w)
    ensures And(x, Pow2(w) - Pow2(0)) == x - x % Pow2(0)
  {
    assert Pow2(0) == 1;
    hide And, Pow2;
    AndLowMask(x, w);
    ModUnique(x, Pow2(w), 0, x);
  }

  lemma MaskOfZero(k: nat, w: nat)
    requires Pow2(k) <= Pow2(w)
    ensures And(0, Pow2(w) - Pow2(k)) == 0 - 0 % Pow2(k)
  {
    hide And, Pow2;
    ModUnique(0, Pow2(k), 0, 0);
    AndUnfolds(0, Pow2(w) - Pow2(k));
  }

  lemma HighMaskStep(x: nat, k: nat, w: nat)
    requires 0 < k <= w && 0 < x && Pow2(k - 1) <= Pow2(w - 1)
    requires And(x / 2, Pow2(w - 1) - Pow2(k - 1)) == x / 2 - (x / 2) % Pow2(k - 1)
    ensures Pow2(k) <= Pow2(w) && And(x, Pow2(w) - Pow2(k)) == x - x % Pow2(k)
  {
    var p, q := Pow2(k - 1), Pow2(w - 1);
    assert Pow2(k) == 2 * p && Pow2(w) == 2 * q;
    hide And, Pow2;
    HalveModulo(x, p);
    AndEven(x, q - p);
    assert 2 * (q - p) == 2 * q - 2 * p;
  }

  lemma AndUnfolds(a: nat, b: nat)
    ensures a > 0 && b > 0 && b % 2 == 0 ==> And(a, b) == 2 * And(a / 2, b / 2)
    ensures And(a, 0) == 0 && And(0, b) == 0
  {
    assert b % 2 == 0 ==> (a % 2) * (b % 2) == 0;
  }

  lemma AndEven(x: nat, m: nat)
    requires x > 0
    ensures And(x, 2 * m) == 2 * And(x / 2, m)
  {
    hide And;
    var b := 2 * m;
    assert b / 2 == m && b % 2 == 0;
    AndUnfolds(x, b);
    AndUnfolds(x / 2, m);
  }

  /** The masked word is the network number exactly if their first length bits agree. */
  lemma MaskComparesPrefix(x: u32, n: u32, length: nat)
    requires length <= 32 && n % Pow2(32 - length) == 0
    ensures And32(x, MaskOf(length)) == n <==> x / Pow2(32 - length) == n / Pow2(32 - length)
  {
    Pow2At32();
    AndHighMask(x, 32 - length, 32);
    SameQuotient(x, n, Pow2(32 - length));
  }

  lemma SameQuotient(x: nat, n: nat, k: nat)
    requires k > 0 && n % k == 0
    ensures x - x % k == n <==> x / k == n / k
  {
    var d := x / k - n / k;
    assert x == k * (x / k) + x % k && n == k * (n / k);
    assert k * d == k * (x / k) - k * (n / k);
    MultipleIsFar(k, d);
  }

  /** The check for bits outside the mask. */
  lemma OutsideMask(n: u32, length: nat)
    requires length <= 32
    ensures And32(n, WORD - 1 - MaskOf(length)) == n % Pow2(32 - length)
  {
    hide Pow2, And;
    OutsideMaskIs(length);
    AndLowMask(n, 32 - length);
  }

  lemma OutsideMaskIs(length: nat)
    requires length <= 32
    ensures WORD - 1 - MaskOf(length) == Pow2(32 - length) - 1
  {
    hide Pow2;
    Pow2At32();
  }

  // ---- What the tests are about ----------------------------------------------------------------

  /** Where a protocol has its source and destination addresses, after the link header. */
  function AddressAt(q: NetProto, source: bool): nat {
    match q
    case Ip => if source then 12 else 16
    case _ => if source then 14 else 24
  }

  /** The masked address field has this value. */
  function FieldMasked(p: Packet, off: nat, mask: u32, addr: u32): Outcome {
    if off + 4 <= |p.data| then Value(And32(Field(p.data, off, Word), mask) == addr) else Reject(OutsidePacket)
  }

  function AddressIs(p: Packet, q: NetProto, source: bool, mask: u32, addr: u32): Outcome {
    Both(IsNet(q, p), FieldMasked(p, NET_AT + AddressAt(q, source), mask, addr))
  }

  function HostIs(p: Packet, q: NetProto, dir: Direction, mask: u32, addr: u32): Outcome {
    match dir
    case Src => AddressIs(p, q, true, mask, addr)
    case Dst => AddressIs(p, q, false, mask, addr)
    case SrcAndDst => Both(AddressIs(p, q, true, mask, addr), AddressIs(p, q, false, mask, addr))
    case SrcOrDst => Either(AddressIs(p, q, true, mask, addr), AddressIs(p, q, false, mask, addr))
  }

  /** The protocol qualifier of a network filter: one protocol, or IPv4, ARP and RARP. */
  datatype Qualifier = Any | Only(q: NetProto)

  function NetIs(p: Packet, sel: Qualifier, dir: Direction, mask: u32, addr: u32): Outcome {
    match sel
    case Only(q) => HostIs(p, q, dir, mask, addr)
    case Any =>
      Either(Either(HostIs(p, Ip, dir, mask, addr), HostIs(p, Arp, dir, mask, addr)), HostIs(p, Rarp, dir, mask, addr))
  }

  // ---- The code --------------------------------------------------------------------------------

  function AddressE(q: NetProto, source: bool, mask: u32, addr: u32): Expr {
    AndThen(NetE(q), CompareExpr([LdAbs(Word, NET_AT + AddressAt(q, source))], mask, Eq, false, addr))
  }

  function HostE(q: NetProto, dir: Direction, mask: u32, addr: u32): Expr {
    match dir
    case Src => AddressE(q, true, mask, addr)
    case Dst => AddressE(q, false, mask, addr)
    case SrcAndDst => AndThen(AddressE(q, true, mask, addr), AddressE(q, false, mask, addr))
    case SrcOrDst => OrElse(AddressE(q, true, mask, addr), AddressE(q, false, mask, addr))
  }

  function NetFilterE(sel: Qualifier, dir: Direction, mask: u32, addr: u32): Expr {
    match sel
    case Only(q) => HostE(q, dir, mask, addr)
    case Any => OrElse(OrElse(HostE(Ip, dir, mask, addr), HostE(Arp, dir, mask, addr)), HostE(Rarp, dir, mask, addr))
  }

  lemma NetFilterDefined(sel: Qualifier, dir: Direction, mask: u32, addr: u32)
    ensures TestsDefined(NetFilterE(sel, dir, mask, addr))
    ensures InsnsOf(NetFilterE(sel, dir, mask, addr)) <=
      9 * (if sel.Any? then 3 else 1) * (if dir.Src? || dir.Dst? then 1 else 2)
  {
    hide HostE;
    match sel {
      case Only(q) => HostDefined(q, dir, mask, addr);
      case Any =>
        HostDefined(Ip, dir, mask, addr);
        HostDefined(Arp, dir, mask, addr);
        HostDefined(Rarp, dir, mask, addr);
    }
  }

  lemma HostDefined(q: NetProto, dir: Direction, mask: u32, addr: u32)
    ensures TestsDefined(HostE(q, dir, mask, addr))
    ensures InsnsOf(HostE(q, dir, mask, addr)) <= 9 * (if dir.Src? || dir.Dst? then 1 else 2)
  {
    hide AddressE;
    AddressDefined(q, true, mask, addr);
    AddressDefined(q, false, mask, addr);
  }

  lemma AddressDefined(q: NetProto, source: bool, mask: u32, addr: u32)
    ensures TestsDefined(AddressE(q, source, mask, addr)) && InsnsOf(AddressE(q, source, mask, addr)) <= 9
  {
    assert InsnsOf(NetE(q)) == 4;
    assert InsnsOf(CompareExpr([LdAbs(Word, NET_AT + AddressAt(q, source))], mask, Eq, false, addr)) <= 5;
  }

  lemma AddressDecides(q: NetProto, source: bool, mask: u32, addr: u32, p: Packet)
    ensures Decides(AddressE(q, source, mask, addr), p, AddressIs(p, q, source, mask, addr))
  {
    var k := NET_AT + AddressAt(q, source);
    var e := CompareExpr([LdAbs(Word, k)], mask, Eq, false, addr);
    forall r: Regs ensures OutcomeOf(Eval(e, r, p)) == FieldMasked(p, k, mask, addr) {
      CompareMeaning(k, Word, mask, Eq, false, addr, r, p);
    }
    NetDecides(q, p);
    BothDecides(NetE(q), e, p, IsNet(q, p), FieldMasked(p, k, mask, addr));
  }

  lemma HostDecides(q: NetProto, dir: Direction, mask: u32, addr: u32, p: Packet)
    ensures Decides(HostE(q, dir, mask, addr), p, HostIs(p, q, dir, mask, addr))
  {
    hide AddressE, AddressIs, Decides;
    AddressDecides(q, true, mask, addr, p);
    AddressDecides(q, false, mask, addr, p);
    var a, b := AddressE(q, true, mask, addr), AddressE(q, false, mask, addr);
    var o, o' := AddressIs(p, q, true, mask, addr), AddressIs(p, q, false, mask, addr);
    BothDecides(a, b, p, o, o');
    EitherDecides(a, b, p, o, o');
  }

  /** The generated test of a network decides what the qualifiers, the mask and the number say. */
  lemma NetFilterDecides(sel: Qualifier, dir: Direction, mask: u32, addr: u32, p: Packet)
    ensures Decides(NetFilterE(sel, dir, mask, addr), p, NetIs(p, sel, dir, mask, addr))
  {
    hide HostE, HostIs, Decides;
    match sel {
      case Only(q) => HostDecides(q, dir, mask, addr, p);
      case Any =>
        HostDecides(Ip, dir, mask, addr, p);
        HostDecides(Arp, dir, mask, addr, p);
        HostDecides(Rarp, dir, mask, addr, p);
        var ip, arp, rarp := HostE(Ip, dir, mask, addr), HostE(Arp, dir, mask, addr), HostE(Rarp, dir, mask, addr);
        var o, o' := HostIs(p, Ip, dir, mask, addr), HostIs(p, Arp, dir, mask, addr);
        var o'' := HostIs(p, Rarp, dir, mask, addr);
        EitherDecides(ip, arp, p, o, o');
        EitherDecides(OrElse(ip, arp), rarp, p, Either(o, o'), o'');
    }
  }

  /**
   * Section 3.1 of RFC 4632: `ip src net` with a prefix of the given length is true exactly of IPv4
   * packets whose source address, all captured, has the first length bits of the network number.
   */
  lemma SourceNetIsPrefix(p: Packet, addr: u32, length: nat)
    requires length <= 32 && addr % Pow2(32 - length) == 0
    ensures NetIs(p, Only(Ip), Src, MaskOf(length), addr) == Value(true) <==>
      && |p.data| >= 30 && Field(p.data, 12, Half) == 0x0800
      && Field(p.data, 26, Word) / Pow2(32 - length) == addr / Pow2(32 - length)
  {
    if |p.data| >= 30 {
      MaskComparesPrefix(Field(p.data, 26, Word), addr, length);
    }
  }

  // ---- The generators --------------------------------------------------------------------------

  /** gen_hostop for one direction. */
  method GenAddress(cs: CompilerState, q: NetProto, source: bool, mask: u32, addr: u32) returns (b: Block)
    requires cs.Valid() && cs.IsEthernet()
    ensures Stands(b, AddressE(q, source, mask, addr)) && fresh(b.leaves)
  {
    hide Shape, Untouched, NetE, CompareExpr;
    var b0 := GenLinktype(cs, q);
    var b1 := cs.GenNcmp(FromLinkPl, AddressAt(q, source), Word, mask, Eq, false, addr);
    assert b1.expr == CompareExpr([LdAbs(Word, NET_AT + AddressAt(q, source))], mask, Eq, false, addr);
    hide LoadACode, AddressAt;
    b := b1;
    GenAnd(b0, b);
  }

  /** gen_hostop. */
  method GenHostop(cs: CompilerState, q: NetProto, dir: Direction, mask: u32, addr: u32) returns (b1: Block)
    requires cs.Valid() && cs.IsEthernet()
    ensures Stands(b1, HostE(q, dir, mask, addr)) && fresh(b1.leaves)
  {
    hide Shape, Untouched, AddressE;
    match dir {
      case Src => b1 := GenAddress(cs, q, true, mask, addr);
      case Dst => b1 := GenAddress(cs, q, false, mask, addr);
      case SrcAndDst =>
        var b0 := GenAddress(cs, q, true, mask, addr);
        b1 := GenAddress(cs, q, false, mask, addr);
        GenAnd(b0, b1);
      case SrcOrDst =>
        var b0 := GenAddress(cs, q, true, mask, addr);
        b1 := GenAddress(cs, q, false, mask, addr);
        GenOr(b0, b1);
    }
  }

  /** gen_host for networks: IPv6 is refused, as every protocol above the network layer is. */
  method GenHost(cs: CompilerState, sel: Qualifier, dir: Direction, mask: u32, addr: u32) returns (b0: Block?)
    requires cs.Valid() && cs.IsEthernet()
    ensures b0 == null <==> sel == Only(Ip6)
    ensures b0 != null ==> Stands(b0, NetFilterE(sel, dir, mask, addr)) && fresh(b0.leaves)
  {
    hide Shape, Untouched, HostE;
    if sel.Any? {
      var b := GenHostop(cs, Ip, dir, mask, addr);
      var b1 := GenHostop(cs, Arp, dir, mask, addr);
      GenOr(b, b1);
      b := GenHostop(cs, Rarp, dir, mask, addr);
      GenOr(b1, b);
      b0 := b;
    } else if sel.q == Ip6 {
      b0 := null;
    } else {
      b0 := GenHostop(cs, sel.q, dir, mask, addr);
    }
  }

  /** The mask of a network filter: a dotted mask, or a prefix length. */
  datatype MaskBy = Dotted(s: string) | Length(masklen: nat)

  /** n <<= 32 - len. */
  function Shifted(n: u32, len: nat): u32
    requires len <= 32
  {
    Wrap(n * Pow2(32 - len))
  }

  /** A number of up to four components, moved up to the high end of the word. */
  function Promoted(s: string): u32
    requires |Components(s)| <= 4
  {
    Shifted(Joined(Components(s)), 8 * |Components(s)|)
  }

  predicate Scanned(s: string) {
    Lexed(s) && |Components(s)| <= 4
  }

  /** The mask is well-formed. */
  predicate MaskGiven(mask: MaskBy) {
    match mask case Dotted(s) => Scanned(s) && Octets(Components(s)) case Length(n) => n <= 32
  }

  function MaskIs(mask: MaskBy): u32
    requires MaskGiven(mask)
  {
    match mask case Dotted(s) => Promoted(s) case Length(n) => MaskOf(n)
  }

  /** What gen_mcode demands of a network number and its mask. */
  predicate GoodNetwork(s: string, mask: MaskBy)
    requires Scanned(s)
  {
    Octets(Components(s)) && MaskGiven(mask) && And32(Promoted(s), WORD - 1 - MaskIs(mask)) == 0
  }

  /** The shift by 32 - masklen, done only where C defines it. */
  method ShiftedOnes(masklen: nat) returns (m: u32)
    requires masklen <= 32
    ensures m == MaskOf(masklen)
  {
    if masklen == 0 {
      m := 0;
      Pow2At32();
    } else {
      m := Wrap(0xffff_ffff * Pow2(32 - masklen));
      Pow2At32();
      Pow2Sum(32 - masklen, masklen);
      var k := Pow2(32 - masklen);
      Pow2Order(32 - masklen, 31);
      assert Pow2(31) * 2 == WORD;
      assert 0xffff_ffff * k == WORD * (k - 1) + (WORD - k);
      ModUnique(0xffff_ffff * k, WORD, k - 1, WORD - k);
    }
  }

  /** A network as the grammar gives it: numbers from the scanner, a mask, and the qualifiers. */
  datatype RawNetwork = RawNetwork(s: string, mask: MaskBy, sel: Qualifier, dir: Direction)
  type Network = n: RawNetwork | Scanned(n.s) && (n.mask.Dotted? ==> Scanned(n.mask.s))
    witness RawNetwork("", Length(32), Any, SrcOrDst)

  predicate Admitted(n: Network) {
    GoodNetwork(n.s, n.mask) && n.sel != Only(Ip6)
  }

  /** What a network filter says of a packet. */
  function IsIn(n: Network, p: Packet): Outcome
    requires Admitted(n)
  {
    NetIs(p, n.sel, n.dir, MaskIs(n.mask), Promoted(n.s))
  }

  function NetworkE(n: Network): Expr
    requires Admitted(n)
  {
    NetFilterE(n.sel, n.dir, MaskIs(n.mask), Promoted(n.s))
  }

  lemma NetworkDecides(n: Network, p: Packet)
    requires Admitted(n)
    ensures Decides(NetworkE(n), p, IsIn(n, p))
  {
    NetFilterDecides(n.sel, n.dir, MaskIs(n.mask), Promoted(n.s), p);
  }

  /** The most instructions of a network filter: for each protocol and address the type test, and the load and the
      mask of the address. */
  function NetworkInsns(n: Network): nat {
    9 * (if n.sel.Any? then 3 else 1) * (if n.dir.Src? || n.dir.Dst? then 1 else 2)
  }

  lemma NetworkDefined(n: Network)
    requires Admitted(n)
    ensures TestsDefined(NetworkE(n)) && InsnsOf(NetworkE(n)) <= NetworkInsns(n)
  {
    hide MaskIs, Promoted, HostE;
    NetFilterDefined(n.sel, n.dir, MaskIs(n.mask), Promoted(n.s));
  }

  /** gen_mcode: an error unless the number and mask are good, else the test of the masked network number. */
  method GenMcode(cs: CompilerState, network: Network) returns (b: Block?)
    requires cs.Valid() && cs.IsEthernet()
    ensures b == null <==> !Admitted(network)
    ensures b != null ==> Stands(b, NetworkE(network)) && fresh(b.leaves)
  {
    hide Shape, Untouched, NetFilterE, Components, Octets, And32, MaskOf, Joined, Shifted;
    var RawNetwork(s, mask, sel, dir) := network;
    var nlen, n := Atoin(s);
    if nlen < 0 {
      return null;
    }
    n := Shifted(n, nlen);
    var m: u32;
    match mask {
      case Dotted(s2) =>
        var mlen;
        mlen, m := Atoin(s2);
        if mlen < 0 {
          return null;
        }
        m := Shifted(m, mlen);
      case Length(masklen) =>
        if masklen > 32 {
          return null;
        }
        m := ShiftedOnes(masklen);
    }
    if And32(n, WORD - 1 - m) != 0 {
      return null;
    }
    b := GenHost(cs, sel, dir, m, n);
  }

  /** For a prefix length, the demand is that the number has no bit beyond the prefix. */
  lemma GoodPrefix(s: string, length: nat)
    requires Scanned(s)
    ensures GoodNetwork(s, Length(length)) <==>
      Octets(Components(s)) && length <= 32 && Promoted(s) % Pow2(32 - length) == 0
  {
    hide Promoted, Pow2, Octets, And, MaskOf, Components;
    if length <= 32 {
      OutsideMask(Promoted(s), length);
    }
  }
}
