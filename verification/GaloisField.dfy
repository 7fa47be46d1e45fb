/** Bytes as elements of GF(2^8) (section 4.2 of FIPS 197): the field laws of the code's multiplication. */
module GaloisField {
  import opened Words

  function Add(a: Byte, b: Byte): (c: Byte) {
    EightBits();
    XorBound(a, b, 8);
    Xor(a, b)
  }

  lemma EightBits()
    ensures Pow2(8) == 256
  {}

  /** The bits of sums, all at once. */
  lemma AddBits()
    ensures forall a: Byte, b: Byte, k: nat {:trigger BitAt(Add(a, b), k)} ::
      BitAt(Add(a, b), k) == (BitAt(a, k) != BitAt(b, k))
  {
    forall a: Byte, b: Byte, k: nat ensures BitAt(Add(a, b), k) == (BitAt(a, k) != BitAt(b, k)) {
      XorBit(a, b, k);
    }
  }

  lemma SameBits(a: Byte, b: Byte)
    requires forall k: nat :: k < 8 ==> BitAt(a, k) == BitAt(b, k)
    ensures a == b
  {
    EightBits();
    BitsDetermine(a, b, 8);
  }

  /** x shifted left, reduced by x^8 + x^4 + x^3 + x + 1 when a bit falls out. */
  function Xtime(x: Byte): Byte {
    Add(x * 2 % 256, if And(x, 0x80) != 0 then 0x1b else 0x00)
  }

  /** x doubled i times. */
  function Double(x: Byte, i: nat): Byte
    decreases i, x
  {
    if i == 0 then x else Xtime(Double(x, i - 1))
  }

  function Halve(y: Byte, i: nat): Byte
    decreases i, y
  {
    if i == 0 then y else Halve(y, i - 1) / 2
  }

  /** The sum of x * 2^i over the set bits i < n of y. */
  function MulBits(x: Byte, y: Byte, n: nat): Byte
    decreases n, x
  {
    if n == 0 then 0
    else if And(Halve(y, n - 1), 1) != 0 then Add(MulBits(x, y, n - 1), Double(x, n - 1))
    else MulBits(x, y, n - 1)
  }

  function Mul(x: Byte, y: Byte): Byte { MulBits(x, y, 8) }

  method Multiply(x: Byte, y: Byte) returns (result: Byte)
    ensures result == Mul(x, y)
  {
    result := 0;
    var temp, rest := x, y;
    for i := 0 to 8
      invariant result == MulBits(x, y, i) && temp == Double(x, i) && rest == Halve(y, i)
    {
      if And(rest, 1) != 0 { result := Add(result, temp); }
      temp := Xtime(temp);
      rest := rest / 2;
    }
  }

  // ----- addition

  lemma AddLaws(a: Byte, b: Byte, c: Byte)
    ensures Add(a, b) == Add(b, a)
    ensures Add(Add(a, b), c) == Add(a, Add(b, c))
    ensures Add(Add(a, b), b) == a
    ensures Add(a, 0) == a && Add(0, a) == a
  {
    AddBits();
    SameBits(Add(a, b), Add(b, a));
    SameBits(Add(Add(a, b), c), Add(a, Add(b, c)));
    SameBits(Add(Add(a, b), b), a);
  }

  // ----- doubling and multiplying are linear

  lemma XtimeBit(x: Byte, k: nat)
    requires k < 8
    ensures BitAt(Xtime(x), k) == ((k > 0 && BitAt(x, k - 1)) != (BitAt(0x1b, k) && BitAt(x, 7)))
  {
    assert Pow2(3) == 8 && Pow2(7) == 0x80;
    TestBit(x, 7);
    AddBits();
    ZeroBits(k);
    ShiftedBit(x, k);
  }

  lemma ShiftedBit(x: Byte, k: nat)
    requires k < 8
    ensures BitAt(x * 2 % 256, k) == (k > 0 && BitAt(x, k - 1))
  {
    EightBits();
    AndLow(x * 2, 8);
    AndBit(x * 2, 255, k);
    ZeroBits(k);
    FlipBit(0, 8, k);
    assert x * 2 / 2 == x;
  }

  lemma XtimeAdds(a: Byte, b: Byte)
    ensures Xtime(Add(a, b)) == Add(Xtime(a), Xtime(b))
  {
    AddBits();
    forall k: nat | k < 8 ensures BitAt(Xtime(Add(a, b)), k) == BitAt(Add(Xtime(a), Xtime(b)), k) {
      XtimeBit(a, k);
      XtimeBit(b, k);
      XtimeBit(Add(a, b), k);
    }
    SameBits(Xtime(Add(a, b)), Add(Xtime(a), Xtime(b)));
  }

  lemma {:induction false} DoubleAdds(a: Byte, b: Byte, i: nat)
    ensures Double(Add(a, b), i) == Add(Double(a, i), Double(b, i))
    decreases i
  {
    if i > 0 {
      DoubleAdds(a, b, i - 1);
      XtimeAdds(Double(a, i - 1), Double(b, i - 1));
    }
  }

  lemma Exchange(a: Byte, b: Byte, c: Byte, d: Byte)
    ensures Add(Add(a, b), Add(c, d)) == Add(Add(a, c), Add(b, d))
  {
    AddBits();
    SameBits(Add(Add(a, b), Add(c, d)), Add(Add(a, c), Add(b, d)));
  }

  lemma {:induction false} MulBitsAdds(a: Byte, b: Byte, y: Byte, n: nat)
    ensures MulBits(Add(a, b), y, n) == Add(MulBits(a, y, n), MulBits(b, y, n))
    decreases n
  {
    if n > 0 {
      MulBitsAdds(a, b, y, n - 1);
      DoubleAdds(a, b, n - 1);
      Exchange(MulBits(a, y, n - 1), MulBits(b, y, n - 1), Double(a, n - 1), Double(b, n - 1));
    }
  }

  /** Multiplication distributes over XOR, the addition of the field. */
  lemma MulAdds(a: Byte, b: Byte, y: Byte)
    ensures Mul(Add(a, b), y) == Add(Mul(a, y), Mul(b, y))
  {
    MulBitsAdds(a, b, y, 8);
  }

  // ----- products with the constants of the two matrices

  /** Multiplying by a constant below 16 adds the doublings its bits select. */
  lemma MulSmall(x: Byte, y: Byte, b0: bool, b1: bool, b2: bool, b3: bool)
    requires y == (if b0 then 1 else 0) + (if b1 then 2 else 0) + (if b2 then 4 else 0) + (if b3 then 8 else 0)
    ensures Mul(x, y) == Nibble(x, b0, b1, b2, b3)
  {
    LowBit(y); LowBit(y / 2); LowBit(y / 4); LowBit(y / 8); LowBit(0);
    assert Halve(y, 1) == y / 2;
    assert Halve(y, 2) == y / 4;
    assert Halve(y, 3) == y / 8;
    assert Halve(y, 4) == 0;
    assert Halve(y, 5) == 0;
    assert Halve(y, 6) == 0;
    assert Halve(y, 7) == 0;
    assert MulBits(x, y, 1) == (if b0 then Add(0, x) else 0);
    assert MulBits(x, y, 4) == Nibble(x, b0, b1, b2, b3) by {
      assert MulBits(x, y, 2) == (if b1 then Add(MulBits(x, y, 1), Double(x, 1)) else MulBits(x, y, 1));
      assert MulBits(x, y, 3) == (if b2 then Add(MulBits(x, y, 2), Double(x, 2)) else MulBits(x, y, 2));
    }
    assert MulBits(x, y, 5) == MulBits(x, y, 4);
    assert MulBits(x, y, 6) == MulBits(x, y, 5);
    assert MulBits(x, y, 7) == MulBits(x, y, 6);
  }

  function Nibble(x: Byte, b0: bool, b1: bool, b2: bool, b3: bool): Byte {
    var s0 := if b0 then Add(0, x) else 0;
    var s1 := if b1 then Add(s0, Double(x, 1)) else s0;
    var s2 := if b2 then Add(s1, Double(x, 2)) else s1;
    if b3 then Add(s2, Double(x, 3)) else s2
  }

  lemma LowBit(y: nat)
    ensures And(y, 1) == y % 2
  {}

  lemma {:induction false} DoubleTwice(x: Byte, i: nat, j: nat)
    ensures Double(Double(x, i), j) == Double(x, i + j)
    decreases j
  {
    if j > 0 { DoubleTwice(x, i, j - 1); }
  }

  // ----- the ring laws

  lemma {:induction false} ZeroDoubles(i: nat)
    ensures Double(0, i) == 0
    decreases i
  {
    if i > 0 { ZeroDoubles(i - 1); }
  }

  lemma {:induction false} ZeroTimes(y: Byte, n: nat)
    ensures MulBits(0, y, n) == 0
    decreases n
  {
    if n > 0 {
      ZeroTimes(y, n - 1);
      ZeroDoubles(n - 1);
    }
  }

  lemma {:induction false} MulBitsDoubles(x: Byte, y: Byte, n: nat, i: nat)
    ensures MulBits(Double(x, i), y, n) == Double(MulBits(x, y, n), i)
    decreases n
  {
    hide And, Add, Double, Halve;
    ZeroDoubles(i);
    if n > 0 {
      MulBitsDoubles(x, y, n - 1, i);
      DoubleAdds(MulBits(x, y, n - 1), Double(x, n - 1), i);
      DoubleTwice(x, i, n - 1);
      DoubleTwice(x, n - 1, i);
    }
  }

  lemma {:induction false} MulBitsSwap(x: Byte, p: Byte, q: Byte, n: nat, m: nat)
    ensures MulBits(MulBits(x, p, n), q, m) == MulBits(MulBits(x, q, m), p, n)
    decreases n
  {
    hide And, Add, Double, Halve;
    ZeroTimes(q, m);
    if n > 0 {
      MulBitsSwap(x, p, q, n - 1, m);
      MulBitsAdds(MulBits(x, p, n - 1), Double(x, n - 1), q, m);
      MulBitsDoubles(x, q, m, n - 1);
    }
  }

  lemma {:induction false} OneBits(x: Byte, n: nat, k: nat)
    requires n <= 8
    ensures BitAt(MulBits(1, x, n), k) == (k < n && BitAt(x, k))
    decreases n
  {
    hide And, Add, Double, Halve, Pow2;
    if n == 0 {
      ZeroBits(k);
    } else {
      OneBits(x, n - 1, k);
      OneDoubled(n - 1);
      Pow2Bit(n - 1, k);
      LowBit(Halve(x, n - 1));
      HalveBit(x, n - 1, 0);
      AddBits();
    }
  }

  lemma {:induction false} OneDoubled(i: nat)
    requires i < 8
    ensures Double(1, i) == Pow2(i)
  {
    if i > 0 {
      OneDoubled(i - 1);
      Pow2Mono(i, 7);
      SmallXtime(Double(1, i - 1));
    }
  }

  lemma SmallXtime(x: Byte)
    requires x < Pow2(7)
    ensures Xtime(x) == 2 * x
  {
    assert Pow2(7) == 0x80;
    TestBit(x, 7);
    HighBitsClear(x, 7, 7);
  }

  lemma {:induction false} HalveBit(x: Byte, i: nat, k: nat)
    ensures BitAt(Halve(x, i), k) == BitAt(x, i + k)
    decreases i
  {
    if i > 0 { HalveBit(x, i - 1, k + 1); }
  }

  /** 1 is neutral. */
  lemma OneTimes(x: Byte)
    ensures Mul(1, x) == x
  {
    forall k: nat | k < 8 ensures BitAt(Mul(1, x), k) == BitAt(x, k) {
      OneBits(x, 8, k);
    }
    SameBits(Mul(1, x), x);
  }

  /** Multiplication is commutative. */
  lemma MulCommutes(x: Byte, y: Byte)
    ensures Mul(x, y) == Mul(y, x)
  {
    OneTimes(x);
    OneTimes(y);
    MulBitsSwap(1, x, y, 8, 8);
  }

  /** Multiplication is associative. */
  lemma MulAssociates(x: Byte, y: Byte, z: Byte)
    ensures Mul(Mul(x, y), z) == Mul(x, Mul(y, z))
  {
    MulCommutes(x, y);
    MulBitsSwap(y, x, z, 8, 8);
    MulCommutes(x, Mul(y, z));
  }

  /** Multiplying by p and then q is multiplying by q and then p. */
  lemma MulSwap(x: Byte, p: Byte, q: Byte)
    ensures Mul(Mul(x, p), q) == Mul(Mul(x, q), p)
  {
    MulBitsSwap(x, p, q, 8, 8);
  }

  lemma MulAddsRight(x: Byte, y: Byte, z: Byte)
    ensures Mul(x, Add(y, z)) == Add(Mul(x, y), Mul(x, z))
  {
    MulCommutes(x, Add(y, z));
    MulCommutes(x, y);
    MulCommutes(x, z);
    MulAdds(y, z, x);
  }
}
