/** What the machine's arithmetic does to numbers and to single bits. */
module WordLaws {
  import opened Words
  import opened Bpf

  // ---- Bits ------------------------------------------------------------------------------------

  lemma {:induction false} BitOfAnd(a: nat, b: nat, i: nat)
    ensures Bit(And(a, b), i) <==> Bit(a, i) && Bit(b, i)
    decreases i
  {
    BitOfZero(i);
    if a > 0 && b > 0 && i > 0 {
      BitOfAnd(a / 2, b / 2, i - 1);
    }
  }

  lemma {:induction false} BitOfOr(a: nat, b: nat, i: nat)
    ensures Bit(Or(a, b), i) <==> Bit(a, i) || Bit(b, i)
    decreases i
  {
    BitOfZero(i);
    if a > 0 && i > 0 {
      BitOfOr(a / 2, b / 2, i - 1);
    }
  }

  lemma {:induction false} BitOfXor(a: nat, b: nat, i: nat)
    ensures Bit(Xor(a, b), i) <==> Bit(a, i) != Bit(b, i)
    decreases i
  {
    BitOfZero(i);
    if a > 0 && i > 0 {
      BitOfXor(a / 2, b / 2, i - 1);
    }
  }

  lemma HalfOfQuotient(a: nat, p: nat)
    requires p > 0
    ensures (a / 2) / p == a / (2 * p)
  {
    var q, r := (a / 2) / p, (a / 2) % p;
    assert a == (2 * p) * q + (2 * r + a % 2) by {
      assert a / 2 == p * q + r;
      assert (2 * p) * q == 2 * (p * q);
    }
    ModUnique(a, 2 * p, q, 2 * r + a % 2);
  }

  lemma {:induction false} BitOfQuotient(a: nat, n: nat, q: nat, i: nat)
    requires q == a / Pow2(n)
    ensures Bit(q, i) <==> Bit(a, i + n)
    decreases n
  {
    if n > 0 {
      HalfOfQuotient(a, Pow2(n - 1));
      BitOfQuotient(a / 2, n - 1, q, i);
    }
  }

  /** Bit i of a number is the last digit, in base two, of what is left after i halvings. */
  lemma BitIsDigit(a: u32, i: nat)
    ensures Bit(a, i) <==> (a / Pow2(i)) % 2 == 1
  {
    BitOfQuotient(a, i, Quotient(a, Pow2(i)), 0);
  }

  lemma {:induction false} BitOfProduct(a: nat, n: nat, i: nat)
    ensures Bit(a * Pow2(n), i) <==> i >= n && Bit(a, i - n)
    decreases n
  {
    if n > 0 {
      var p := Pow2(n - 1);
      assert a * Pow2(n) == 2 * (a * p);
      if i > 0 {
        BitOfProduct(a, n - 1, i - 1);
      }
    }
  }

  lemma {:induction false} BitOfRemainder(a: nat, n: nat, r: nat, i: nat)
    requires r == a % Pow2(n)
    ensures Bit(r, i) <==> i < n && Bit(a, i)
    decreases n
  {
    if n == 0 {
      BitOfZero(i);
    } else {
      HalveModulo(a, Pow2(n - 1));
      if i > 0 {
        BitOfRemainder(a / 2, n - 1, r / 2, i - 1);
      }
    }
  }

  /** A number is its bits. */
  lemma {:induction false} SameBits(a: nat, b: nat, n: nat)
    requires a < Pow2(n) && b < Pow2(n) && forall i: nat | i < n :: Bit(a, i) == Bit(b, i)
    ensures a == b
    decreases n
  {
    if n > 0 {
      assert Bit(a, 0) == Bit(b, 0);
      forall i: nat | i < n - 1 ensures Bit(a / 2, i) == Bit(b / 2, i) {
        assert Bit(a, i + 1) == Bit(b, i + 1);
      }
      SameBits(a / 2, b / 2, n - 1);
    }
  }

  /** The bit operations work on each of the 32 bits by itself. */
  lemma BitwiseByBits(a: u32, x: u32, i: nat)
    ensures Bit(Alu(BitAnd, a, x), i) <==> Bit(a, i) && Bit(x, i)
    ensures Bit(Alu(BitOr, a, x), i) <==> Bit(a, i) || Bit(x, i)
    ensures Bit(Alu(BitXor, a, x), i) <==> Bit(a, i) != Bit(x, i)
  {
    BitOfAnd(a, x, i);
    BitOfOr(a, x, i);
    BitOfXor(a, x, i);
  }

  /** Shifting to the left moves every bit up and drops those that leave the word. */
  lemma LeftShiftByBits(a: u32, x: u32, i: nat)
    ensures Bit(Alu(Lsh, a, x), i) <==> x <= i < 32 && Bit(a, i - x)
  {
    if x < 32 {
      Pow2At32();
      BitOfRemainder(a * Pow2(x), 32, Alu(Lsh, a, x), i);
      BitOfProduct(a, x, i);
    } else {
      BitOfZero(i);
    }
  }

  /** Shifting to the right moves every bit down. */
  lemma RightShiftByBits(a: u32, x: u32, i: nat)
    ensures Bit(Alu(Rsh, a, x), i) <==> Bit(a, i + x)
  {
    if x < 32 {
      BitOfQuotient(a, x, Alu(Rsh, a, x), i);
    } else {
      NoHighBit(a, i + x);
      BitOfZero(i);
    }
  }

  lemma NoHighBit(a: u32, i: nat)
    requires i >= 32
    ensures !Bit(a, i)
  {
    Pow2At32();
    ModUnique(a, WORD, 0, a);
    BitOfRemainder(a, 32, a, i);
  }

  // ---- Numbers ---------------------------------------------------------------------------------

  /** Sums and differences are taken modulo 2^32. */
  lemma SumAndDifference(a: u32, x: u32)
    ensures Alu(Add, a, x) == if a + x < 0x1_0000_0000 then a + x else a + x - 0x1_0000_0000
    ensures Alu(Sub, a, x) == if a >= x then a - x else a + 0x1_0000_0000 - x
    ensures Alu(Add, Alu(Sub, a, x), x) == a
  {
  }

  /** The product is short of the true one by a multiple of 2^32. */
  lemma ProductModulo(a: u32, x: u32)
    ensures exists q: nat :: a * x == q * 0x1_0000_0000 + Alu(Mul, a, x)
  {
    var q := (a * x) / WORD;
    ProductIsNat(a, x);
    assert a * x == q * 0x1_0000_0000 + Alu(Mul, a, x);
  }

  /** The division equation, which with the bound on the remainder determines both results. */
  lemma QuotientAndRemainder(a: u32, x: u32)
    requires x != 0
    ensures a == Alu(Div, a, x) * x + Alu(Mod, a, x) && Alu(Mod, a, x) < x
  {
  }

  /** Negation gives what has to be added to come to 0 modulo 2^32. */
  lemma NegationCancels(r: Regs, p: Packet)
    ensures Exec(Neg, r, p).Next? && Exec(Neg, r, p).regs == r.(a := Exec(Neg, r, p).regs.a)
    ensures Exec(Neg, r, p).regs.a == if r.a == 0 then 0 else 0x1_0000_0000 - r.a
  {
  }

  /** The bit test of JSET: some bit is set in both. */
  lemma SetMeansCommonBit(a: u32, x: u32)
    ensures Holds(Set, a, x) <==> exists i: nat :: i < 32 && Bit(a, i) && Bit(x, i)
  {
    Pow2At32();
    if i: nat :| i < 32 && Bit(a, i) && Bit(x, i) {
      BitOfAnd(a, x, i);
      BitOfZero(i);
    } else {
      forall i: nat | i < 32 ensures Bit(And(a, x), i) == Bit(0, i) {
        BitOfAnd(a, x, i);
        BitOfZero(i);
      }
      SameBits(And(a, x), 0, 32);
    }
  }
}
