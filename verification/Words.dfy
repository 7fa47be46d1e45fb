/** Unsigned machine words and the bit operators the kernel applies to them.

    The operators are defined bit by bit on natural numbers; the lemmas below turn
    the masks the kernel uses into arithmetic and into statements about single bits. */
module Words {

  /** A 32-bit unsigned word. */
  type Word = x: nat | x < 0x1_0000_0000

  type Byte = x: nat | x < 256

  function Pow2(k: nat): (p: nat)
    ensures p > 0
  {
    if k == 0 then 1 else 2 * Pow2(k - 1)
  }

  /** Bit k of x, bit 0 being the least significant. */
  predicate BitAt(x: nat, k: nat)
    decreases k
  {
    if k == 0 then x % 2 == 1 else BitAt(x / 2, k - 1)
  }

  function And(x: nat, y: nat): nat {
    if x == 0 || y == 0 then 0
    else (if x % 2 == 1 && y % 2 == 1 then 1 else 0) + 2 * And(x / 2, y / 2)
  }

  function Or(x: nat, y: nat): nat
    decreases x + y
  {
    if x == 0 then y else if y == 0 then x
    else (if x % 2 == 1 || y % 2 == 1 then 1 else 0) + 2 * Or(x / 2, y / 2)
  }

  function Xor(x: nat, y: nat): nat
    decreases x + y
  {
    if x == 0 then y else if y == 0 then x
    else (if x % 2 == y % 2 then 0 else 1) + 2 * Xor(x / 2, y / 2)
  }

  /** Complement of a 32-bit word. */
  function Not(x: Word): Word {
    0xFFFF_FFFF - x
  }

  lemma {:induction false} Pow2Mono(a: nat, b: nat)
    requires a <= b
    ensures Pow2(a) <= Pow2(b)
  {
    if a < b { Pow2Mono(a, b - 1); }
  }

  lemma {:induction false} ZeroBits(k: nat)
    ensures !BitAt(0, k)
  {
    if k > 0 { ZeroBits(k - 1); }
  }

  lemma {:induction false} AndBit(x: nat, y: nat, k: nat)
    ensures BitAt(And(x, y), k) == (BitAt(x, k) && BitAt(y, k))
    decreases k
  {
    if x == 0 || y == 0 {
      ZeroBits(k);
    } else if k > 0 {
      var low := if x % 2 == 1 && y % 2 == 1 then 1 else 0;
      assert And(x, y) == low + 2 * And(x / 2, y / 2);
      assert And(x, y) / 2 == And(x / 2, y / 2);
      AndBit(x / 2, y / 2, k - 1);
    } else {
      assert And(x, y) % 2 == 1 <==> x % 2 == 1 && y % 2 == 1;
    }
  }

  lemma {:induction false} OrBit(x: nat, y: nat, k: nat)
    ensures BitAt(Or(x, y), k) == (BitAt(x, k) || BitAt(y, k))
    decreases k
  {
    if x == 0 || y == 0 {
      ZeroBits(k);
    } else if k > 0 {
      var low := if x % 2 == 1 || y % 2 == 1 then 1 else 0;
      assert Or(x, y) == low + 2 * Or(x / 2, y / 2);
      assert Or(x, y) / 2 == Or(x / 2, y / 2);
      OrBit(x / 2, y / 2, k - 1);
    } else {
      assert Or(x, y) % 2 == 1 <==> x % 2 == 1 || y % 2 == 1;
    }
  }

  lemma {:induction false} XorBit(x: nat, y: nat, k: nat)
    ensures BitAt(Xor(x, y), k) == (BitAt(x, k) != BitAt(y, k))
    decreases k
  {
    if x == 0 || y == 0 {
      ZeroBits(k);
    } else if k > 0 {
      var low := if x % 2 == y % 2 then 0 else 1;
      assert Xor(x, y) == low + 2 * Xor(x / 2, y / 2);
      assert Xor(x, y) / 2 == Xor(x / 2, y / 2);
      XorBit(x / 2, y / 2, k - 1);
    } else {
      assert Xor(x, y) % 2 == (if x % 2 == y % 2 then 0 else 1);
    }
  }

  /** Complementing within n bits flips exactly the bits below n. */
  lemma {:induction false} FlipBit(x: nat, n: nat, k: nat)
    requires x < Pow2(n) && k < n
    ensures BitAt(Pow2(n) - 1 - x, k) == !BitAt(x, k)
    decreases k
  {
    if k > 0 {
      assert (Pow2(n) - 1 - x) / 2 == Pow2(n - 1) - 1 - x / 2;
      FlipBit(x / 2, n - 1, k - 1);
    }
  }

  lemma Pow2At32()
    ensures Pow2(12) == 0x1000 && Pow2(20) == 0x10_0000 && Pow2(32) == 0x1_0000_0000
  {
    assert Pow2(4) == 16;
    assert Pow2(8) == 256;
    assert Pow2(12) == 0x1000;
    assert Pow2(16) == 0x1_0000;
    assert Pow2(20) == 0x10_0000;
    assert Pow2(24) == 0x100_0000;
    assert Pow2(28) == 0x1000_0000;
  }

  lemma NotBit(x: Word, k: nat)
    requires k < 32
    ensures BitAt(Not(x), k) == !BitAt(x, k)
  {
    Pow2At32();
    FlipBit(x, 32, k);
  }

  /** A power of two has exactly one bit. */
  lemma {:induction false} Pow2Bit(n: nat, k: nat)
    ensures BitAt(Pow2(n), k) == (n == k)
    decreases k
  {
    if n == 0 {
      if k > 0 { ZeroBits(k - 1); }
    } else if k > 0 {
      Pow2Bit(n - 1, k - 1);
    }
  }

  /** A number below Pow2(n) has no bit at or above n. */
  lemma {:induction false} HighBitsClear(x: nat, n: nat, k: nat)
    requires x < Pow2(n) && n <= k
    ensures !BitAt(x, k)
    decreases k
  {
    if n == 0 {
      ZeroBits(k);
    } else {
      HighBitsClear(x / 2, n - 1, k - 1);
    }
  }

  /** Words are determined by their bits. */
  lemma {:induction false} BitsDetermine(x: nat, y: nat, n: nat)
    requires x < Pow2(n) && y < Pow2(n)
    requires forall k: nat :: k < n ==> BitAt(x, k) == BitAt(y, k)
    ensures x == y
  {
    if n > 0 {
      assert BitAt(x, 0) == BitAt(y, 0);
      forall k: nat | k < n - 1 ensures BitAt(x / 2, k) == BitAt(y / 2, k) {
        assert BitAt(x, k + 1) == BitAt(y, k + 1);
      }
      BitsDetermine(x / 2, y / 2, n - 1);
    }
  }

  /** x & 2^k tests bit k. */
  lemma {:induction false} TestBit(x: nat, k: nat)
    ensures (And(x, Pow2(k)) != 0) == BitAt(x, k)
  {
    if x == 0 {
      ZeroBits(k);
    } else if k > 0 {
      TestBit(x / 2, k - 1);
    }
  }

  lemma {:induction false} AndLow(x: nat, n: nat)
    ensures And(x, Pow2(n) - 1) == x % Pow2(n)
  {
    if n > 0 {
      AndLow(x / 2, n - 1);
      HalvedMod(x, Pow2(n - 1));
      AndOdd(x, Pow2(n - 1));
    }
  }

  lemma AndOdd(x: nat, p: nat)
    requires p > 0
    ensures And(x, 2 * p - 1) == x % 2 + 2 * And(x / 2, p - 1)
  {}

  lemma HalvedMod(x: nat, p: nat)
    requires p > 0
    ensures x % (2 * p) == x % 2 + 2 * ((x / 2) % p)
  {
    var q, r := (x / 2) / p, (x / 2) % p;
    assert x / 2 == q * p + r;
    assert x == q * (2 * p) + (x % 2 + 2 * r);
    EuclidUnique(x, 2 * p, q, x % 2 + 2 * r);
  }

  lemma EuclidUnique(x: nat, d: nat, q: nat, r: nat)
    requires d > 0 && r < d && x == q * d + r
    ensures x / d == q && x % d == r
  {
    var gap := x / d - q;
    assert x == d * (x / d) + x % d;
    assert gap * d == d * (x / d) - q * d;
    NonZeroMultiple(gap, d);
  }

  lemma NonZeroMultiple(gap: int, d: nat)
    ensures gap > 0 ==> gap * d >= d
    ensures gap < 0 ==> gap * d + d <= 0
  {}

  /** A mask and its complement split a word. */
  lemma {:induction false} MaskSplits(x: nat, y: nat, n: nat)
    requires x < Pow2(n) && y < Pow2(n)
    ensures And(x, y) + And(x, Pow2(n) - 1 - y) == x
  {
    if n > 0 && x > 0 {
      assert (Pow2(n) - 1 - y) / 2 == Pow2(n - 1) - 1 - y / 2;
      MaskSplits(x / 2, y / 2, n - 1);
    }
  }

  lemma {:induction false} OrAdds(x: nat, y: nat)
    ensures Or(x, y) + And(x, y) == x + y
    decreases x + y
  {
    if x > 0 && y > 0 {
      OrAdds(x / 2, y / 2);
    }
  }

  /** x & ~0xFFF clears the low twelve bits; x & 0xFFF keeps only them. */
  lemma PageMask(x: Word)
    ensures And(x, 0xFFF) == x % 0x1000
    ensures And(x, Not(0xFFF)) == x / 0x1000 * 0x1000
  {
    Pow2At32();
    AndLow(x, 12);
    MaskSplits(x, 0xFFF, 32);
  }

  /** Joining a multiple of 2^n with a smaller number by | is addition. */
  lemma {:induction false} OrAligned(a: nat, f: nat, n: nat)
    requires f < Pow2(n)
    ensures Or(a * Pow2(n), f) == a * Pow2(n) + f
    decreases n
  {
    if n > 0 && a > 0 && f > 0 {
      var high := a * Pow2(n - 1);
      OrAligned(a, f / 2, n - 1);
      TimesTwo(a, Pow2(n - 1));
      OrEven(high, f);
    }
  }

  lemma TimesTwo(a: nat, p: nat)
    ensures a * (2 * p) == 2 * (a * p)
  {}

  lemma OrEven(h: nat, f: nat)
    ensures Or(2 * h, f) == f % 2 + 2 * Or(h, f / 2)
  {}

  lemma {:induction false} OrBound(x: nat, y: nat, n: nat)
    requires x < Pow2(n) && y < Pow2(n)
    ensures Or(x, y) < Pow2(n)
    decreases n
  {
    if n > 0 {
      OrBound(x / 2, y / 2, n - 1);
    }
  }

  lemma {:induction false} AndBound(x: nat, y: nat)
    ensures And(x, y) <= x && And(x, y) <= y
  {
    if x > 0 && y > 0 { AndBound(x / 2, y / 2); }
  }

  lemma {:induction false} XorBound(x: nat, y: nat, n: nat)
    requires x < Pow2(n) && y < Pow2(n)
    ensures Xor(x, y) < Pow2(n)
    decreases n
  {
    if n > 0 {
      XorBound(x / 2, y / 2, n - 1);
    }
  }
}
