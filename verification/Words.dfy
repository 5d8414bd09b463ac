/** Unsigned machine words and their bitwise operations, on unbounded integers. */
module Words {

  const WORD: nat := 0x1_0000_0000
  const INT_MAX: nat := 0x7fff_ffff

  type byte = x: int | 0 <= x < 256
  type u32 = x: int | 0 <= x < 0x1_0000_0000

  /** The value of an unbounded integer in a 32-bit unsigned variable. */
  function Wrap(x: int): u32 {
    x % WORD
  }

  /** The number that octets make in network order, the first one highest. */
  function Base256(octets: seq<byte>): nat {
    if octets == [] then 0 else 0x100 * Base256(octets[..|octets| - 1]) + octets[|octets| - 1]
  }

  /** Bitwise AND, bit by bit. */
  function And(a: nat, b: nat): (r: nat)
    ensures r <= a && r <= b
    decreases a
  {
    if a == 0 || b == 0 then 0 else 2 * And(a / 2, b / 2) + (if a % 2 == 1 && b % 2 == 1 then 1 else 0)
  }

  /** Bitwise OR, bit by bit. */
  function Or(a: nat, b: nat): (r: nat)
    decreases a
  {
    if a == 0 then b else 2 * Or(a / 2, b / 2) + (if a % 2 == 1 || b % 2 == 1 then 1 else 0)
  }

  /** Bitwise exclusive OR, bit by bit. */
  function Xor(a: nat, b: nat): (r: nat)
    decreases a
  {
    if a == 0 then b else 2 * Xor(a / 2, b / 2) + (a % 2 + b % 2) % 2
  }

  function Pow2(n: nat): (p: nat)
    ensures p >= 1
  {
    if n == 0 then 1 else 2 * Pow2(n - 1)
  }

  /** Bit i of x. */
  predicate Bit(x: nat, i: nat) {
    if i == 0 then x % 2 == 1 else Bit(x / 2, i - 1)
  }

  /** OR and XOR never leave the width of their operands. */
  lemma {:induction false} OrXorFit(a: nat, b: nat, n: nat)
    requires a < Pow2(n) && b < Pow2(n)
    ensures Or(a, b) < Pow2(n)
    ensures Xor(a, b) < Pow2(n)
    decreases n
  {
    if n > 0 && a != 0 {
      OrXorFit(a / 2, b / 2, n - 1);
    }
  }

  lemma Pow2At32()
    ensures Pow2(32) == WORD
  {
    assert Pow2(8) == 256;
    assert Pow2(16) == 0x1_0000 by { assert Pow2(12) == 4096; }
    assert Pow2(24) == 0x100_0000 by { assert Pow2(20) == 0x10_0000; }
    assert Pow2(28) == 0x1000_0000;
  }

  function And32(a: u32, b: u32): u32 {
    And(a, b)
  }

  function Or32(a: u32, b: u32): u32 {
    Pow2At32();
    OrXorFit(a, b, 32);
    Or(a, b)
  }

  function Xor32(a: u32, b: u32): u32 {
    Pow2At32();
    OrXorFit(a, b, 32);
    Xor(a, b)
  }

  /** A mask of n low one bits keeps the remainder modulo 2^n. */
  lemma {:induction false} AndLowMask(a: nat, n: nat)
    ensures And(a, Pow2(n) - 1) == a % Pow2(n)
    decreases n
  {
    if n == 0 || a == 0 {
      ModUnique(a, Pow2(n), if n == 0 then a else 0, 0);
    } else {
      var p := Pow2(n - 1);
      AndLowMask(a / 2, n - 1);
      AndHalves(a, p);
      HalveModulo(a, p);
      assert Pow2(n) == 2 * p;
    }
  }

  lemma LowNibble(b: byte)
    ensures And32(b, 0xf) == b % 16
  {
    assert Pow2(4) == 16;
    AndLowMask(b, 4);
  }

  lemma AndHalves(a: nat, p: nat)
    requires a > 0 && p > 0
    ensures And(a, 2 * p - 1) == 2 * And(a / 2, p - 1) + a % 2
  {
    var b := 2 * p - 1;
    assert b / 2 == p - 1 && b % 2 == 1;
  }

  lemma HalveModulo(a: nat, p: nat)
    requires p > 0
    ensures a % (2 * p) == 2 * ((a / 2) % p) + a % 2
  {
    var q, r := (a / 2) / p, (a / 2) % p;
    assert a == (2 * p) * q + (2 * r + a % 2) by {
      assert a / 2 == p * q + r;
      assert (2 * p) * q == 2 * (p * q);
    }
    ModUnique(a, 2 * p, q, 2 * r + a % 2);
  }

  /** Quotient and remainder are determined by the division equation. */
  lemma ModUnique(a: int, m: int, q: int, r: int)
    requires m > 0 && 0 <= r < m && a == m * q + r
    ensures a % m == r && a / m == q
  {
    var d := a / m - q;
    assert m * d == r - a % m by { assert m * d == m * (a / m) - m * q; }
    MultipleIsFar(m, d);
  }

  lemma MultipleIsFar(m: int, d: int)
    requires m > 0
    ensures d >= 1 ==> m * d >= m
    ensures d <= -1 ==> m * d <= -m
  {
  }

  /** AND reads single bits: the bit test of JSET with a one-bit mask. */
  lemma {:induction false} AndSingleBit(a: nat, i: nat)
    ensures And(a, Pow2(i)) == if Bit(a, i) then Pow2(i) else 0
    decreases i
  {
    if a == 0 {
      BitOfZero(i);
    } else if i > 0 {
      AndSingleBit(a / 2, i - 1);
    }
  }

  lemma {:induction false} BitOfZero(i: nat)
    ensures !Bit(0, i)
  {
    if i > 0 {
      BitOfZero(i - 1);
    }
  }
}
