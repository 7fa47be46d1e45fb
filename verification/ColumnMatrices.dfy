/** One column of MixColumns and of its inverse (sections 5.1.3 and 5.3.3 of FIPS 197). */
module ColumnMatrices {
  import opened Words
  import opened GaloisField

  /** The byte of a mixed column in the row of a, the rows below holding b, c and d cyclically. */
  function Mix(a: Byte, b: Byte, c: Byte, d: Byte): Byte {
    Sum4(Mul(a, 2), Mul(b, 3), c, d)
  }

  function InvMix(a: Byte, b: Byte, c: Byte, d: Byte): Byte {
    Sum4(Mul(a, 0x0e), Mul(b, 0x0b), Mul(c, 0x0d), Mul(d, 0x09))
  }

  function Sum4(a: Byte, b: Byte, c: Byte, d: Byte): Byte {
    Add(Add(Add(a, b), c), d)
  }

  // ----- sums of four

  lemma Sum4Turns(a: Byte, b: Byte, c: Byte, d: Byte)
    ensures Sum4(a, b, c, d) == Sum4(b, c, d, a) == Sum4(c, d, a, b) == Sum4(d, a, b, c) == Sum4(a, d, c, b)
  {
    AddBits();
    SameBits(Sum4(a, b, c, d), Sum4(b, c, d, a));
    SameBits(Sum4(a, b, c, d), Sum4(c, d, a, b));
    SameBits(Sum4(a, b, c, d), Sum4(d, a, b, c));
    SameBits(Sum4(a, b, c, d), Sum4(a, d, c, b));
  }

  lemma Sum4Adds(a: Byte, b: Byte, c: Byte, d: Byte, e: Byte, f: Byte, g: Byte, h: Byte)
    ensures Add(Sum4(a, b, c, d), Sum4(e, f, g, h)) == Sum4(Add(a, e), Add(b, f), Add(c, g), Add(d, h))
  {
    Exchange(Add(Add(a, b), c), d, Add(Add(e, f), g), h);
    Exchange(Add(a, b), c, Add(e, f), g);
    Exchange(a, b, e, f);
  }

  /** Adding the entries of a square by rows or by columns is the same. */
  lemma Sum4Transposed(
    p0: Byte, p1: Byte, p2: Byte, p3: Byte,
    q0: Byte, q1: Byte, q2: Byte, q3: Byte,
    r0: Byte, r1: Byte, r2: Byte, r3: Byte,
    s0: Byte, s1: Byte, s2: Byte, s3: Byte)
    ensures Sum4(Sum4(p0, p1, p2, p3), Sum4(q0, q1, q2, q3), Sum4(r0, r1, r2, r3), Sum4(s0, s1, s2, s3))
         == Sum4(Sum4(p0, q0, r0, s0), Sum4(p1, q1, r1, s1), Sum4(p2, q2, r2, s2), Sum4(p3, q3, r3, s3))
  {
    Sum4Adds(p0, p1, p2, p3, q0, q1, q2, q3);
    Sum4Adds(Add(p0, q0), Add(p1, q1), Add(p2, q2), Add(p3, q3), r0, r1, r2, r3);
    Sum4Adds(Add(Add(p0, q0), r0), Add(Add(p1, q1), r1), Add(Add(p2, q2), r2), Add(Add(p3, q3), r3), s0, s1, s2, s3);
  }

  lemma MulSum4(a: Byte, b: Byte, c: Byte, d: Byte, y: Byte)
    ensures Mul(Sum4(a, b, c, d), y) == Sum4(Mul(a, y), Mul(b, y), Mul(c, y), Mul(d, y))
  {
    MulAdds(Add(Add(a, b), c), d, y);
    MulAdds(Add(a, b), c, y);
    MulAdds(a, b, y);
  }

  // ----- the product of the two matrices

  /** x times p*14 + q*11 + r*13 + s*9, an entry of the product of the two matrices. */
  function Entry(x: Byte, p: Byte, q: Byte, r: Byte, s: Byte): Byte {
    Sum4(Mul(Mul(x, p), 0x0e), Mul(Mul(x, q), 0x0b), Mul(Mul(x, r), 0x0d), Mul(Mul(x, s), 0x09))
  }

  lemma ByOne(x: Byte)
    ensures Mul(x, 1) == x
  {
    MulSmall(x, 1, true, false, false, false);
    ZeroAdds(x);
  }

  lemma ByTwo(x: Byte)
    ensures Mul(x, 2) == Double(x, 1)
  {
    MulSmall(x, 2, false, true, false, false);
    ZeroAdds(Double(x, 1));
  }

  lemma ByThree(x: Byte)
    ensures Mul(x, 3) == Add(x, Double(x, 1))
  {
    MulSmall(x, 3, true, true, false, false);
    ZeroAdds(x);
  }

  lemma ByNine(x: Byte)
    ensures Mul(x, 0x09) == Add(x, Double(x, 3))
  {
    MulSmall(x, 0x09, true, false, false, true);
    ZeroAdds(x);
  }

  lemma ByEleven(x: Byte)
    ensures Mul(x, 0x0b) == Add(Add(x, Double(x, 1)), Double(x, 3))
  {
    MulSmall(x, 0x0b, true, true, false, true);
    ZeroAdds(x);
  }

  lemma ByThirteen(x: Byte)
    ensures Mul(x, 0x0d) == Add(Add(x, Double(x, 2)), Double(x, 3))
  {
    MulSmall(x, 0x0d, true, false, true, true);
    ZeroAdds(x);
  }

  lemma ByFourteen(x: Byte)
    ensures Mul(x, 0x0e) == Add(Add(Double(x, 1), Double(x, 2)), Double(x, 3))
  {
    MulSmall(x, 0x0e, false, true, true, true);
    ZeroAdds(Double(x, 1));
  }

  lemma ZeroAdds(x: Byte)
    ensures Add(0, x) == x == Add(x, 0)
  {}

  // ----- products of an entry of one matrix and an entry of the other

  lemma DoubledTwice(x: Byte, k: nat)
    ensures Double(Double(x, 1), k) == Double(x, k + 1)
  {}

  lemma DoubledSum(x: Byte, k: nat)
    ensures Double(Add(x, Double(x, 1)), k) == Add(Double(x, k), Double(x, k + 1))
  {
    DoubleTwice(x, 1, k);
    DoubleAdds(x, Double(x, 1), k);
  }

  lemma TwoThenFourteen(x: Byte)
    ensures Mul(Mul(x, 2), 0x0e) == Add(Add(Double(x, 2), Double(x, 3)), Double(x, 4))
  {
    ByTwo(x);
    ByFourteen(Double(x, 1));
    DoubledTwice(x, 1);
    DoubledTwice(x, 2);
    DoubledTwice(x, 3);
  }

  lemma TwoThenEleven(x: Byte)
    ensures Mul(Mul(x, 2), 0x0b) == Add(Add(Double(x, 1), Double(x, 2)), Double(x, 4))
  {
    ByTwo(x);
    ByEleven(Double(x, 1));
    DoubledTwice(x, 1);
    DoubledTwice(x, 3);
  }

  lemma TwoThenThirteen(x: Byte)
    ensures Mul(Mul(x, 2), 0x0d) == Add(Add(Double(x, 1), Double(x, 3)), Double(x, 4))
  {
    ByTwo(x);
    ByThirteen(Double(x, 1));
    DoubledTwice(x, 2);
    DoubledTwice(x, 3);
  }

  lemma TwoThenNine(x: Byte)
    ensures Mul(Mul(x, 2), 0x09) == Add(Double(x, 1), Double(x, 4))
  {
    ByTwo(x);
    ByNine(Double(x, 1));
    DoubledTwice(x, 3);
  }

  lemma ThreeThenFourteen(x: Byte)
    ensures Mul(Mul(x, 3), 0x0e)
      == Add(Add(Add(Double(x, 1), Double(x, 2)), Add(Double(x, 2), Double(x, 3))), Add(Double(x, 3), Double(x, 4)))
  {
    ByThree(x);
    ByFourteen(Add(x, Double(x, 1)));
    DoubledSum(x, 1);
    DoubledSum(x, 2);
    DoubledSum(x, 3);
  }

  lemma ThreeThenEleven(x: Byte)
    ensures Mul(Mul(x, 3), 0x0b)
      == Add(Add(Add(x, Double(x, 1)), Add(Double(x, 1), Double(x, 2))), Add(Double(x, 3), Double(x, 4)))
  {
    ByThree(x);
    ByEleven(Add(x, Double(x, 1)));
    DoubledSum(x, 1);
    DoubledSum(x, 3);
  }

  lemma ThreeThenThirteen(x: Byte)
    ensures Mul(Mul(x, 3), 0x0d)
      == Add(Add(Add(x, Double(x, 1)), Add(Double(x, 2), Double(x, 3))), Add(Double(x, 3), Double(x, 4)))
  {
    ByThree(x);
    ByThirteen(Add(x, Double(x, 1)));
    DoubledSum(x, 2);
    DoubledSum(x, 3);
  }

  lemma ThreeThenNine(x: Byte)
    ensures Mul(Mul(x, 3), 0x09) == Add(Add(x, Double(x, 1)), Add(Double(x, 3), Double(x, 4)))
  {
    ByThree(x);
    ByNine(Add(x, Double(x, 1)));
    DoubledSum(x, 3);
  }

  // ----- the entries of the matrix product

  lemma DiagonalEntry(x: Byte)
    ensures Entry(x, 2, 1, 1, 3) == x
  {
    TwoThenFourteen(x);
    ByOne(x);
    ByEleven(x);
    ByThirteen(x);
    ThreeThenNine(x);
    CancelDiagonal(x, Double(x, 1), Double(x, 2), Double(x, 3), Double(x, 4));
  }

  lemma CancelDiagonal(a: Byte, b: Byte, c: Byte, d: Byte, e: Byte)
    ensures Sum4(Add(Add(c, d), e), Add(Add(a, b), d), Add(Add(a, c), d), Add(Add(a, b), Add(d, e))) == a
  {
    AddBits();
    SameBits(Sum4(Add(Add(c, d), e), Add(Add(a, b), d), Add(Add(a, c), d), Add(Add(a, b), Add(d, e))), a);
  }

  lemma EntryBelow(x: Byte)
    ensures Entry(x, 3, 2, 1, 1) == 0
  {
    ThreeThenFourteen(x);
    TwoThenEleven(x);
    ByOne(x);
    ByThirteen(x);
    ByNine(x);
    CancelBelow(x, Double(x, 1), Double(x, 2), Double(x, 3), Double(x, 4));
  }

  lemma CancelBelow(a: Byte, b: Byte, c: Byte, d: Byte, e: Byte)
    ensures Sum4(Add(Add(Add(b, c), Add(c, d)), Add(d, e)), Add(Add(b, c), e), Add(Add(a, c), d), Add(a, d)) == 0
  {
    AddBits();
    forall k: nat ensures !BitAt(0, k) { ZeroBits(k); }
    SameBits(Sum4(Add(Add(Add(b, c), Add(c, d)), Add(d, e)), Add(Add(b, c), e), Add(Add(a, c), d), Add(a, d)), 0);
  }

  lemma EntryTwoBelow(x: Byte)
    ensures Entry(x, 1, 3, 2, 1) == 0
  {
    ByOne(x);
    ByFourteen(x);
    ThreeThenEleven(x);
    TwoThenThirteen(x);
    ByNine(x);
    CancelTwoBelow(x, Double(x, 1), Double(x, 2), Double(x, 3), Double(x, 4));
  }

  lemma CancelTwoBelow(a: Byte, b: Byte, c: Byte, d: Byte, e: Byte)
    ensures Sum4(Add(Add(b, c), d), Add(Add(Add(a, b), Add(b, c)), Add(d, e)), Add(Add(b, d), e), Add(a, d)) == 0
  {
    AddBits();
    forall k: nat ensures !BitAt(0, k) { ZeroBits(k); }
    SameBits(Sum4(Add(Add(b, c), d), Add(Add(Add(a, b), Add(b, c)), Add(d, e)), Add(Add(b, d), e), Add(a, d)), 0);
  }

  lemma EntryThreeBelow(x: Byte)
    ensures Entry(x, 1, 1, 3, 2) == 0
  {
    ByOne(x);
    ByFourteen(x);
    ByEleven(x);
    ThreeThenThirteen(x);
    TwoThenNine(x);
    CancelThreeBelow(x, Double(x, 1), Double(x, 2), Double(x, 3), Double(x, 4));
  }

  lemma CancelThreeBelow(a: Byte, b: Byte, c: Byte, d: Byte, e: Byte)
    ensures Sum4(Add(Add(b, c), d), Add(Add(a, b), d), Add(Add(Add(a, b), Add(c, d)), Add(d, e)), Add(b, e)) == 0
  {
    AddBits();
    forall k: nat ensures !BitAt(0, k) { ZeroBits(k); }
    SameBits(Sum4(Add(Add(b, c), d), Add(Add(a, b), d), Add(Add(Add(a, b), Add(c, d)), Add(d, e)), Add(b, e)), 0);
  }

  // ----- the matrices are inverse

  /** Four rows, each written from its own diagonal place on, add up by columns. */
  lemma Sum4Square(
    p0: Byte, p1: Byte, p2: Byte, p3: Byte,
    q0: Byte, q1: Byte, q2: Byte, q3: Byte,
    r0: Byte, r1: Byte, r2: Byte, r3: Byte,
    s0: Byte, s1: Byte, s2: Byte, s3: Byte)
    ensures Sum4(Sum4(p0, p1, p2, p3), Sum4(q1, q2, q3, q0), Sum4(r2, r3, r0, r1), Sum4(s3, s0, s1, s2))
         == Sum4(Sum4(p0, q0, r0, s0), Sum4(p1, q1, r1, s1), Sum4(p2, q2, r2, s2), Sum4(p3, q3, r3, s3))
  {
    Sum4Turns(q0, q1, q2, q3);
    Sum4Turns(r0, r1, r2, r3);
    Sum4Turns(s0, s1, s2, s3);
    Sum4Transposed(p0, p1, p2, p3, q0, q1, q2, q3, r0, r1, r2, r3, s0, s1, s2, s3);
  }

  function Term(x: Byte, p: Byte, y: Byte): Byte { Mul(Mul(x, p), y) }

  lemma MixTimes(a: Byte, b: Byte, c: Byte, d: Byte, y: Byte)
    ensures Mul(Mix(a, b, c, d), y) == Sum4(Term(a, 2, y), Term(b, 3, y), Term(c, 1, y), Term(d, 1, y))
  {
    ByOne(c);
    ByOne(d);
    MulSum4(Mul(a, 2), Mul(b, 3), c, d, y);
  }

  lemma InvMixByRows(a: Byte, b: Byte, c: Byte, d: Byte)
    ensures InvMix(Mix(a, b, c, d), Mix(b, c, d, a), Mix(c, d, a, b), Mix(d, a, b, c))
         == Sum4(Sum4(Term(a, 2, 0x0e), Term(b, 3, 0x0e), Term(c, 1, 0x0e), Term(d, 1, 0x0e)),
                 Sum4(Term(b, 2, 0x0b), Term(c, 3, 0x0b), Term(d, 1, 0x0b), Term(a, 1, 0x0b)),
                 Sum4(Term(c, 2, 0x0d), Term(d, 3, 0x0d), Term(a, 1, 0x0d), Term(b, 1, 0x0d)),
                 Sum4(Term(d, 2, 0x09), Term(a, 3, 0x09), Term(b, 1, 0x09), Term(c, 1, 0x09)))
  {
    MixTimes(a, b, c, d, 0x0e);
    MixTimes(b, c, d, a, 0x0b);
    MixTimes(c, d, a, b, 0x0d);
    MixTimes(d, a, b, c, 0x09);
  }

  /** One row of the inverse matrix undoes a mixed column. */
  lemma InvMixOfMix(a: Byte, b: Byte, c: Byte, d: Byte)
    ensures InvMix(Mix(a, b, c, d), Mix(b, c, d, a), Mix(c, d, a, b), Mix(d, a, b, c)) == a
  {
    InvMixByRows(a, b, c, d);
    Sum4Square(Term(a, 2, 0x0e), Term(b, 3, 0x0e), Term(c, 1, 0x0e), Term(d, 1, 0x0e),
               Term(a, 1, 0x0b), Term(b, 2, 0x0b), Term(c, 3, 0x0b), Term(d, 1, 0x0b),
               Term(a, 1, 0x0d), Term(b, 1, 0x0d), Term(c, 2, 0x0d), Term(d, 3, 0x0d),
               Term(a, 3, 0x09), Term(b, 1, 0x09), Term(c, 1, 0x09), Term(d, 2, 0x09));
    DiagonalEntry(a);
    EntryBelow(b);
    EntryTwoBelow(c);
    EntryThreeBelow(d);
    ZeroAdds(a);
  }

  lemma InvMixTimes(a: Byte, b: Byte, c: Byte, d: Byte, y: Byte)
    ensures Mul(InvMix(a, b, c, d), y)
         == Sum4(Term(a, 0x0e, y), Term(b, 0x0b, y), Term(c, 0x0d, y), Term(d, 0x09, y))
  {
    MulSum4(Mul(a, 0x0e), Mul(b, 0x0b), Mul(c, 0x0d), Mul(d, 0x09), y);
  }

  lemma MixByRows(a: Byte, b: Byte, c: Byte, d: Byte)
    ensures Mix(InvMix(a, b, c, d), InvMix(b, c, d, a), InvMix(c, d, a, b), InvMix(d, a, b, c))
         == Sum4(Sum4(Term(a, 0x0e, 2), Term(b, 0x0b, 2), Term(c, 0x0d, 2), Term(d, 0x09, 2)),
                 Sum4(Term(b, 0x0e, 3), Term(c, 0x0b, 3), Term(d, 0x0d, 3), Term(a, 0x09, 3)),
                 Sum4(Term(c, 0x0e, 1), Term(d, 0x0b, 1), Term(a, 0x0d, 1), Term(b, 0x09, 1)),
                 Sum4(Term(d, 0x0e, 1), Term(a, 0x0b, 1), Term(b, 0x0d, 1), Term(c, 0x09, 1)))
  {
    InvMixTimes(a, b, c, d, 2);
    InvMixTimes(b, c, d, a, 3);
    InvMixTimes(c, d, a, b, 1);
    InvMixTimes(d, a, b, c, 1);
    ByOne(InvMix(c, d, a, b));
    ByOne(InvMix(d, a, b, c));
  }

  /** The factors of an entry taken in the other order, from each row on. */
  lemma EntrySwapped(x: Byte, p: Byte, q: Byte, r: Byte, s: Byte)
    ensures Sum4(Term(x, 0x0e, p), Term(x, 0x09, s), Term(x, 0x0d, r), Term(x, 0x0b, q)) == Entry(x, p, q, r, s)
    ensures Sum4(Term(x, 0x0b, q), Term(x, 0x0e, p), Term(x, 0x09, s), Term(x, 0x0d, r)) == Entry(x, p, q, r, s)
    ensures Sum4(Term(x, 0x0d, r), Term(x, 0x0b, q), Term(x, 0x0e, p), Term(x, 0x09, s)) == Entry(x, p, q, r, s)
    ensures Sum4(Term(x, 0x09, s), Term(x, 0x0d, r), Term(x, 0x0b, q), Term(x, 0x0e, p)) == Entry(x, p, q, r, s)
  {
    MulSwap(x, p, 0x0e);
    MulSwap(x, q, 0x0b);
    MulSwap(x, r, 0x0d);
    MulSwap(x, s, 0x09);
    Sum4Turns(Term(x, p, 0x0e), Term(x, q, 0x0b), Term(x, r, 0x0d), Term(x, s, 0x09));
    Sum4Turns(Term(x, p, 0x0e), Term(x, s, 0x09), Term(x, r, 0x0d), Term(x, q, 0x0b));
  }

  /** One row of the matrix undoes an inversely mixed column. */
  lemma MixOfInvMix(a: Byte, b: Byte, c: Byte, d: Byte)
    ensures Mix(InvMix(a, b, c, d), InvMix(b, c, d, a), InvMix(c, d, a, b), InvMix(d, a, b, c)) == a
  {
    MixByRows(a, b, c, d);
    Sum4Square(Term(a, 0x0e, 2), Term(b, 0x0b, 2), Term(c, 0x0d, 2), Term(d, 0x09, 2),
               Term(a, 0x09, 3), Term(b, 0x0e, 3), Term(c, 0x0b, 3), Term(d, 0x0d, 3),
               Term(a, 0x0d, 1), Term(b, 0x09, 1), Term(c, 0x0e, 1), Term(d, 0x0b, 1),
               Term(a, 0x0b, 1), Term(b, 0x0d, 1), Term(c, 0x09, 1), Term(d, 0x0e, 1));
    EntrySwapped(a, 2, 1, 1, 3);
    EntrySwapped(b, 3, 2, 1, 1);
    EntrySwapped(c, 1, 3, 2, 1);
    EntrySwapped(d, 1, 1, 3, 2);
    DiagonalEntry(a);
    EntryBelow(b);
    EntryTwoBelow(c);
    EntryThreeBelow(d);
    ZeroAdds(a);
  }
}
