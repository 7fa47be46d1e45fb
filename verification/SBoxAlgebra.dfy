/** Where the substitution table comes from (section 5.1.1 of FIPS 197): the inverse in the field, then an affine map of
    the bits. Entries are compared on bit vectors, which the verifier evaluates, and carried over to bytes bit by
    bit. */
module SBoxAlgebra {
  import opened Words
  import opened GaloisField
  import opened SBoxes

  /** The inverse in the field; 0 stands for itself. */
  ghost predicate IsInverse(a: Byte, b: Byte) {
    if a == 0 then b == 0 else Mul(a, b) == 1
  }

  /** Bit i of s is the sum of bits i, i + 4, i + 5, i + 6 and i + 7 of b, counted round, and bit i of 0x63. */
  ghost predicate AffineImage(b: Byte, s: Byte) {
    forall i: nat :: i < 8 ==>
      BitAt(s, i) == (BitAt(b, i) != (BitAt(b, (i + 4) % 8) != (BitAt(b, (i + 5) % 8) !=
        (BitAt(b, (i + 6) % 8) != (BitAt(b, (i + 7) % 8) != BitAt(0x63, i))))))
  }

  // ----- bytes and bit vectors

  function One(b: bool): nat { if b then 1 else 0 }

  function Value(v: bv8): Byte {
    One(v & 0x01 != 0) + 2 * (One(v & 0x02 != 0) + 2 * (One(v & 0x04 != 0) + 2 * (One(v & 0x08 != 0)
      + 2 * (One(v & 0x10 != 0) + 2 * (One(v & 0x20 != 0) + 2 * (One(v & 0x40 != 0) + 2 * One(v & 0x80 != 0)))))))
  }

  function Mask(i: nat): bv8
    requires i < 8
  {
    if i == 0 then 0x01 else if i == 1 then 0x02 else if i == 2 then 0x04 else if i == 3 then 0x08
    else if i == 4 then 0x10 else if i == 5 then 0x20 else if i == 6 then 0x40 else 0x80
  }

  predicate BitOf(v: bv8, i: nat)
    requires i < 8
  {
    v & Mask(i) != 0
  }

  lemma LowestBit(b: bool, rest: nat, i: nat)
    ensures BitAt(One(b) + 2 * rest, i) == if i == 0 then b else BitAt(rest, i - 1)
  {
    assert (One(b) + 2 * rest) / 2 == rest;
  }

  /** Four more bits below those of rest. */
  function Four(b3: bool, b2: bool, b1: bool, b0: bool, rest: nat): nat {
    One(b0) + 2 * (One(b1) + 2 * (One(b2) + 2 * (One(b3) + 2 * rest)))
  }

  lemma FourBits(b3: bool, b2: bool, b1: bool, b0: bool, rest: nat, i: nat)
    ensures BitAt(Four(b3, b2, b1, b0, rest), i)
      == if i == 0 then b0 else if i == 1 then b1 else if i == 2 then b2 else if i == 3 then b3 else BitAt(rest, i - 4)
  {
    hide BitAt, One;
    LowestBit(b0, One(b1) + 2 * (One(b2) + 2 * (One(b3) + 2 * rest)), i);
    if i > 0 { LowestBit(b1, One(b2) + 2 * (One(b3) + 2 * rest), i - 1); }
    if i > 1 { LowestBit(b2, One(b3) + 2 * rest, i - 2); }
    if i > 2 { LowestBit(b3, rest, i - 3); }
  }

  lemma ValueBit(v: bv8, i: nat)
    requires i < 8
    ensures BitAt(Value(v), i) == BitOf(v, i)
  {
    hide BitAt;
    var high := Four(v & 0x80 != 0, v & 0x40 != 0, v & 0x20 != 0, v & 0x10 != 0, 0);
    FourBits(v & 0x08 != 0, v & 0x04 != 0, v & 0x02 != 0, v & 0x01 != 0, high, i);
    if i > 3 { FourBits(v & 0x80 != 0, v & 0x40 != 0, v & 0x20 != 0, v & 0x10 != 0, 0, i - 4); }
  }

  lemma ValueBits(v: bv8)
    ensures forall i: nat {:trigger BitAt(Value(v), i)} :: i < 8 ==> BitAt(Value(v), i) == BitOf(v, i)
  {
    forall i: nat | i < 8 ensures BitAt(Value(v), i) == BitOf(v, i) { ValueBit(v, i); }
  }

  /** Values with the same bits are equal. */
  lemma ValueIs(v: bv8, b: Byte)
    requires forall i: nat :: i < 8 ==> BitOf(v, i) == BitAt(b, i)
    ensures Value(v) == b
  {
    hide BitAt, Value, BitOf;
    ValueBits(v);
    SameBits(Value(v), b);
  }

  // ----- the field on bit vectors

  lemma SumIs(v: bv8, w: bv8)
    ensures Value(v ^ w) == Add(Value(v), Value(w))
  {
    hide Add, BitAt, Value, BitOf;
    AddBits();
    ValueBits(v);
    ValueBits(w);
    forall i: nat | i < 8 ensures BitOf(v ^ w, i) == BitAt(Add(Value(v), Value(w)), i) {
      XorBitOf(v, w, i);
    }
    ValueIs(v ^ w, Add(Value(v), Value(w)));
  }

  lemma XorBitOf(v: bv8, w: bv8, i: nat)
    requires i < 8
    ensures BitOf(v ^ w, i) == (BitOf(v, i) != BitOf(w, i))
  {
    hide Mask;
    MaskIs(i);
    XorMasked(v, w, Mask(i));
  }

  lemma MaskIs(i: nat)
    requires i < 8
    ensures var m := Mask(i);
      m == 0x01 || m == 0x02 || m == 0x04 || m == 0x08 || m == 0x10 || m == 0x20 || m == 0x40 || m == 0x80
  {}

  lemma XorMasked(v: bv8, w: bv8, m: bv8)
    requires m == 0x01 || m == 0x02 || m == 0x04 || m == 0x08 || m == 0x10 || m == 0x20 || m == 0x40 || m == 0x80
    ensures ((v ^ w) & m != 0) == ((v & m != 0) != (w & m != 0))
  {}

  function Doubled(v: bv8): bv8 {
    (v << 1) ^ (if v & 0x80 != 0 then 0x1b else 0)
  }

  lemma DoubledBitOf(v: bv8, i: nat)
    requires i < 8
    ensures BitOf(Doubled(v), i) == ((i > 0 && BitOf(v, i - 1)) != (BitOf(0x1b, i) && BitOf(v, 7)))
  {}

  lemma Constants()
    ensures Value(0) == 0 && Value(1) == 1 && Value(0x1b) == 0x1b && Value(0x63) == 0x63
  {}

  lemma DoubledIs(v: bv8)
    ensures Value(Doubled(v)) == Xtime(Value(v))
  {
    hide Xtime, BitAt, Value, BitOf, Doubled;
    Constants();
    ValueBits(v);
    ValueBits(0x1b);
    forall i: nat | i < 8 ensures BitOf(Doubled(v), i) == BitAt(Xtime(Value(v)), i) {
      XtimeBit(Value(v), i);
      DoubledBitOf(v, i);
    }
    ValueIs(Doubled(v), Xtime(Value(v)));
  }

  /** The shift-and-add multiplication, its eight rounds written out. */
  function Product(v: bv8, w: bv8): bv8 {
    var v1 := Doubled(v);
    var v2 := Doubled(v1);
    var v3 := Doubled(v2);
    var v4 := Doubled(v3);
    var v5 := Doubled(v4);
    var v6 := Doubled(v5);
    (if w & 0x01 != 0 then v else 0) ^ (if w & 0x02 != 0 then v1 else 0) ^ (if w & 0x04 != 0 then v2 else 0)
      ^ (if w & 0x08 != 0 then v3 else 0) ^ (if w & 0x10 != 0 then v4 else 0) ^ (if w & 0x20 != 0 then v5 else 0)
      ^ (if w & 0x40 != 0 then v6 else 0) ^ (if w & 0x80 != 0 then Doubled(v6) else 0)
  }

  /** One round of the multiplication: c is what it adds to sum. */
  lemma Round(sum: bv8, c: bv8, next: bv8, x: Byte, y: Byte, n: nat)
    requires next == sum ^ c && Value(sum) == MulBits(x, y, n) && Value(c) == (if BitAt(y, n) then Double(x, n) else 0)
    ensures Value(next) == MulBits(x, y, n + 1)
  {
    hide Add, And, BitAt, Value, Halve, MulBits, Double;
    NextBits(x, y, n);
    SumIs(sum, c);
    ChosenBit(y, n);
    AddLaws(Value(sum), 0, 0);
  }

  lemma NextBits(x: Byte, y: Byte, n: nat)
    ensures MulBits(x, y, n + 1)
      == if And(Halve(y, n), 1) != 0 then Add(MulBits(x, y, n), Double(x, n)) else MulBits(x, y, n)
    ensures Double(x, n + 1) == Xtime(Double(x, n))
  {
    hide Add, And, Halve, Xtime;
  }

  lemma ChosenBit(y: Byte, i: nat)
    ensures (And(Halve(y, i), 1) != 0) == BitAt(y, i)
  {
    LowBit(Halve(y, i));
    HalveBit(y, i, 0);
    assert BitAt(Halve(y, i), 0) == (Halve(y, i) % 2 == 1);
  }

  lemma NoBits(x: Byte, y: Byte)
    ensures MulBits(x, y, 0) == 0 && Double(x, 0) == x
  {}

  /** What round n adds, and the next doubling. */
  lemma Chooses(v: bv8, w: bv8, x: Byte, n: nat, m: bv8) returns (c: bv8)
    requires n < 8 && Value(v) == Double(x, n) && m == Mask(n)
    ensures c == (if w & m != 0 then v else 0)
    ensures Value(c) == if BitAt(Value(w), n) then Double(x, n) else 0
    ensures Value(Doubled(v)) == Double(x, n + 1)
  {
    hide Value, Double, Doubled, BitAt, Mask;
    Constants();
    ValueBit(w, n);
    DoubledIs(v);
    NextBits(x, 0, n);
    c := if w & m != 0 then v else 0;
  }

  lemma AllRounds(c0: bv8, c1: bv8, c2: bv8, c3: bv8, c4: bv8, c5: bv8, c6: bv8, c7: bv8,
                  s1: bv8, s2: bv8, s3: bv8, s4: bv8, s5: bv8, s6: bv8, s7: bv8, x: Byte, y: Byte)
    requires s1 == c0 ^ c1 && s2 == s1 ^ c2 && s3 == s2 ^ c3 && s4 == s3 ^ c4
    requires s5 == s4 ^ c5 && s6 == s5 ^ c6 && s7 == s6 ^ c7
    requires Value(c0) == (if BitAt(y, 0) then Double(x, 0) else 0)
    requires Value(c1) == (if BitAt(y, 1) then Double(x, 1) else 0)
    requires Value(c2) == (if BitAt(y, 2) then Double(x, 2) else 0)
    requires Value(c3) == (if BitAt(y, 3) then Double(x, 3) else 0)
    requires Value(c4) == (if BitAt(y, 4) then Double(x, 4) else 0)
    requires Value(c5) == (if BitAt(y, 5) then Double(x, 5) else 0)
    requires Value(c6) == (if BitAt(y, 6) then Double(x, 6) else 0)
    requires Value(c7) == (if BitAt(y, 7) then Double(x, 7) else 0)
    ensures Value(s7) == MulBits(x, y, 8)
  {
    hide Value, MulBits, Double, BitAt;
    Constants();
    NoBits(x, y);
    Round(0, c0, c0, x, y, 0);
    Round(c0, c1, s1, x, y, 1);
    Round(s1, c2, s2, x, y, 2);
    Round(s2, c3, s3, x, y, 3);
    Round(s3, c4, s4, x, y, 4);
    Round(s4, c5, s5, x, y, 5);
    Round(s5, c6, s6, x, y, 6);
    Round(s6, c7, s7, x, y, 7);
  }

  lemma ProductIs(v: bv8, w: bv8)
    ensures Value(Product(v, w)) == Mul(Value(v), Value(w))
  {
    hide MulBits, Mul, Double, Value, Doubled, BitAt, Product;
    var x := Value(v);
    NoBits(x, Value(w));
    var v1 := Doubled(v);
    var v2 := Doubled(v1);
    var v3 := Doubled(v2);
    var v4 := Doubled(v3);
    var v5 := Doubled(v4);
    var v6 := Doubled(v5);
    var c0 := Chooses(v, w, x, 0, 0x01);
    var c1 := Chooses(v1, w, x, 1, 0x02);
    var c2 := Chooses(v2, w, x, 2, 0x04);
    var c3 := Chooses(v3, w, x, 3, 0x08);
    var c4 := Chooses(v4, w, x, 4, 0x10);
    var c5 := Chooses(v5, w, x, 5, 0x20);
    var c6 := Chooses(v6, w, x, 6, 0x40);
    var c7 := Chooses(Doubled(v6), w, x, 7, 0x80);
    Combined(v, w, c0, c1, c2, c3, c4, c5, c6, c7);
  }

  /** The sum of what the rounds add is the product, on bytes and on bit vectors. */
  lemma Combined(v: bv8, w: bv8, c0: bv8, c1: bv8, c2: bv8, c3: bv8, c4: bv8, c5: bv8, c6: bv8, c7: bv8)
    requires var v1 := Doubled(v);
      var v2 := Doubled(v1);
      var v3 := Doubled(v2);
      var v4 := Doubled(v3);
      var v5 := Doubled(v4);
      var v6 := Doubled(v5);
      && c0 == (if w & 0x01 != 0 then v else 0) && c1 == (if w & 0x02 != 0 then v1 else 0)
      && c2 == (if w & 0x04 != 0 then v2 else 0) && c3 == (if w & 0x08 != 0 then v3 else 0)
      && c4 == (if w & 0x10 != 0 then v4 else 0) && c5 == (if w & 0x20 != 0 then v5 else 0)
      && c6 == (if w & 0x40 != 0 then v6 else 0) && c7 == (if w & 0x80 != 0 then Doubled(v6) else 0)
    requires var x, y := Value(v), Value(w);
      && Value(c0) == (if BitAt(y, 0) then Double(x, 0) else 0)
      && Value(c1) == (if BitAt(y, 1) then Double(x, 1) else 0)
      && Value(c2) == (if BitAt(y, 2) then Double(x, 2) else 0)
      && Value(c3) == (if BitAt(y, 3) then Double(x, 3) else 0)
      && Value(c4) == (if BitAt(y, 4) then Double(x, 4) else 0)
      && Value(c5) == (if BitAt(y, 5) then Double(x, 5) else 0)
      && Value(c6) == (if BitAt(y, 6) then Double(x, 6) else 0)
      && Value(c7) == (if BitAt(y, 7) then Double(x, 7) else 0)
    ensures Value(Product(v, w)) == Mul(Value(v), Value(w))
  {
    hide MulBits, Double, Value, Doubled, BitAt, Product;
    var s1 := c0 ^ c1;
    var s2 := s1 ^ c2;
    var s3 := s2 ^ c3;
    var s4 := s3 ^ c4;
    var s5 := s4 ^ c5;
    var s6 := s5 ^ c6;
    var s7 := s6 ^ c7;
    AllRounds(c0, c1, c2, c3, c4, c5, c6, c7, s1, s2, s3, s4, s5, s6, s7, Value(v), Value(w));
    ProductOf(v, w, c0, c1, c2, c3, c4, c5, c6, c7, s1, s2, s3, s4, s5, s6, s7);
  }

  lemma ProductOf(v: bv8, w: bv8, c0: bv8, c1: bv8, c2: bv8, c3: bv8, c4: bv8, c5: bv8, c6: bv8, c7: bv8,
                  s1: bv8, s2: bv8, s3: bv8, s4: bv8, s5: bv8, s6: bv8, s7: bv8)
    requires s1 == c0 ^ c1 && s2 == s1 ^ c2 && s3 == s2 ^ c3 && s4 == s3 ^ c4
    requires s5 == s4 ^ c5 && s6 == s5 ^ c6 && s7 == s6 ^ c7
    requires var v1 := Doubled(v);
      var v2 := Doubled(v1);
      var v3 := Doubled(v2);
      var v4 := Doubled(v3);
      var v5 := Doubled(v4);
      var v6 := Doubled(v5);
      && c0 == (if w & 0x01 != 0 then v else 0) && c1 == (if w & 0x02 != 0 then v1 else 0)
      && c2 == (if w & 0x04 != 0 then v2 else 0) && c3 == (if w & 0x08 != 0 then v3 else 0)
      && c4 == (if w & 0x10 != 0 then v4 else 0) && c5 == (if w & 0x20 != 0 then v5 else 0)
      && c6 == (if w & 0x40 != 0 then v6 else 0) && c7 == (if w & 0x80 != 0 then Doubled(v6) else 0)
    ensures Product(v, w) == s7
  {
    hide Doubled;
  }

  // ----- the affine map on bit vectors

  function Affine(v: bv8): bv8 {
    v ^ ((v << 1) | (v >> 7)) ^ ((v << 2) | (v >> 6)) ^ ((v << 3) | (v >> 5)) ^ ((v << 4) | (v >> 4)) ^ 0x63
  }

  /** A mask meets a rotated vector as the mask rotated back meets the vector. */
  lemma RotatedMask(v: bv8, m: bv8)
    ensures (((v << 1) | (v >> 7)) & m != 0) == (v & ((m >> 1) | (m << 7)) != 0)
    ensures (((v << 2) | (v >> 6)) & m != 0) == (v & ((m >> 2) | (m << 6)) != 0)
    ensures (((v << 3) | (v >> 5)) & m != 0) == (v & ((m >> 3) | (m << 5)) != 0)
    ensures (((v << 4) | (v >> 4)) & m != 0) == (v & ((m >> 4) | (m << 4)) != 0)
  {}

  lemma MaskTurned(i: nat)
    requires i < 8
    ensures var m := Mask(i);
      && (m >> 1) | (m << 7) == Mask((i + 7) % 8) && (m >> 2) | (m << 6) == Mask((i + 6) % 8)
      && (m >> 3) | (m << 5) == Mask((i + 5) % 8) && (m >> 4) | (m << 4) == Mask((i + 4) % 8)
  {}

  lemma RotatedBits(v: bv8, i: nat)
    requires i < 8
    ensures BitOf((v << 1) | (v >> 7), i) == BitOf(v, (i + 7) % 8)
    ensures BitOf((v << 2) | (v >> 6), i) == BitOf(v, (i + 6) % 8)
  {
    hide Mask;
    MaskTurned(i);
    RotatedMask(v, Mask(i));
  }

  lemma RotatedFurther(v: bv8, i: nat)
    requires i < 8
    ensures BitOf((v << 3) | (v >> 5), i) == BitOf(v, (i + 5) % 8)
    ensures BitOf((v << 4) | (v >> 4), i) == BitOf(v, (i + 4) % 8)
  {
    hide Mask;
    MaskTurned(i);
    RotatedMask(v, Mask(i));
  }

  lemma AffineBitOf(v: bv8, i: nat)
    requires i < 8
    ensures BitOf(Affine(v), i) == (BitOf(v, i) != (BitOf(v, (i + 4) % 8) != (BitOf(v, (i + 5) % 8) !=
      (BitOf(v, (i + 6) % 8) != (BitOf(v, (i + 7) % 8) != BitOf(0x63, i))))))
  {
    hide BitOf;
    var r1, r2, r3, r4 := (v << 1) | (v >> 7), (v << 2) | (v >> 6), (v << 3) | (v >> 5), (v << 4) | (v >> 4);
    RotatedBits(v, i);
    RotatedFurther(v, i);
    XorBitOf(v, r1, i);
    XorBitOf(v ^ r1, r2, i);
    XorBitOf(v ^ r1 ^ r2, r3, i);
    XorBitOf(v ^ r1 ^ r2 ^ r3, r4, i);
    XorBitOf(v ^ r1 ^ r2 ^ r3 ^ r4, 0x63, i);
  }

  lemma AffineIs(v: bv8)
    ensures AffineImage(Value(v), Value(Affine(v)))
  {
    hide BitAt, Value, BitOf, Affine;
    Constants();
    ValueBits(v);
    ValueBits(Affine(v));
    ValueBits(0x63);
    forall i: nat | i < 8
      ensures BitAt(Value(Affine(v)), i)
        == (BitAt(Value(v), i) != (BitAt(Value(v), (i + 4) % 8) != (BitAt(Value(v), (i + 5) % 8) !=
        (BitAt(Value(v), (i + 6) % 8) != (BitAt(Value(v), (i + 7) % 8) != BitAt(0x63, i))))))
    {
      AffineBitOf(v, i);
    }
  }

  // ----- the table, entry by entry

  /** w is the inverse of a, and the substitution of a is s, the affine image of w. */
  predicate Entry(a: Byte, w: bv8, s: Byte) {
    Product(a as bv8, w) == 1 && Sub(a) == s && Affine(w) == s as bv8
  }

  lemma Entries00(a: Byte) returns (w: bv8, s: Byte)
    requires 0x01 <= a < 0x08
    ensures Entry(a, w, s)
  {
    if a == 0x01 { w, s := 0x01, 0x7c; } else if a == 0x02 { w, s := 0x8d, 0x77; } else if a == 0x03 { w, s := 0xf6, 0x7b; }
    else if a == 0x04 { w, s := 0xcb, 0xf2; } else if a == 0x05 { w, s := 0x52, 0x6b; } else if a == 0x06 { w, s := 0x7b, 0x6f; } else { w, s := 0xd1, 0xc5; }
  }

  lemma Entries08(a: Byte) returns (w: bv8, s: Byte)
    requires 0x08 <= a < 0x10
    ensures Entry(a, w, s)
  {
    if a == 0x08 { w, s := 0xe8, 0x30; } else if a == 0x09 { w, s := 0x4f, 0x01; } else if a == 0x0a { w, s := 0x29, 0x67; }
    else if a == 0x0b { w, s := 0xc0, 0x2b; } else if a == 0x0c { w, s := 0xb0, 0xfe; } else if a == 0x0d { w, s := 0xe1, 0xd7; }
    else if a == 0x0e { w, s := 0xe5, 0xab; } else { w, s := 0xc7, 0x76; }
  }

  lemma Entries10(a: Byte) returns (w: bv8, s: Byte)
    requires 0x10 <= a < 0x18
    ensures Entry(a, w, s)
  {
    if a == 0x10 { w, s := 0x74, 0xca; } else if a == 0x11 { w, s := 0xb4, 0x82; } else if a == 0x12 { w, s := 0xaa, 0xc9; }
    else if a == 0x13 { w, s := 0x4b, 0x7d; } else if a == 0x14 { w, s := 0x99, 0xfa; } else if a == 0x15 { w, s := 0x2b, 0x59; }
    else if a == 0x16 { w, s := 0x60, 0x47; } else { w, s := 0x5f, 0xf0; }
  }

  lemma Entries18(a: Byte) returns (w: bv8, s: Byte)
    requires 0x18 <= a < 0x20
    ensures Entry(a, w, s)
  {
    if a == 0x18 { w, s := 0x58, 0xad; } else if a == 0x19 { w, s := 0x3f, 0xd4; } else if a == 0x1a { w, s := 0xfd, 0xa2; }
    else if a == 0x1b { w, s := 0xcc, 0xaf; } else if a == 0x1c { w, s := 0xff, 0x9c; } else if a == 0x1d { w, s := 0x40, 0xa4; }
    else if a == 0x1e { w, s := 0xee, 0x72; } else { w, s := 0xb2, 0xc0; }
  }

  lemma Entries20(a: Byte) returns (w: bv8, s: Byte)
    requires 0x20 <= a < 0x28
    ensures Entry(a, w, s)
  {
    if a == 0x20 { w, s := 0x3a, 0xb7; } else if a == 0x21 { w, s := 0x6e, 0xfd; } else if a == 0x22 { w, s := 0x5a, 0x93; }
    else if a == 0x23 { w, s := 0xf1, 0x26; } else if a == 0x24 { w, s := 0x55, 0x36; } else if a == 0x25 { w, s := 0x4d, 0x3f; }
    else if a == 0x26 { w, s := 0xa8, 0xf7; } else { w, s := 0xc9, 0xcc; }
  }

  lemma Entries28(a: Byte) returns (w: bv8, s: Byte)
    requires 0x28 <= a < 0x30
    ensures Entry(a, w, s)
  {
    if a == 0x28 { w, s := 0xc1, 0x34; } else if a == 0x29 { w, s := 0x0a, 0xa5; } else if a == 0x2a { w, s := 0x98, 0xe5; }
    else if a == 0x2b { w, s := 0x15, 0xf1; } else if a == 0x2c { w, s := 0x30, 0x71; } else if a == 0x2d { w, s := 0x44, 0xd8; }
    else if a == 0x2e { w, s := 0xa2, 0x31; } else { w, s := 0xc2, 0x15; }
  }

  lemma Entries30(a: Byte) returns (w: bv8, s: Byte)
    requires 0x30 <= a < 0x38
    ensures Entry(a, w, s)
  {
    if a == 0x30 { w, s := 0x2c, 0x04; } else if a == 0x31 { w, s := 0x45, 0xc7; } else if a == 0x32 { w, s := 0x92, 0x23; }
    else if a == 0x33 { w, s := 0x6c, 0xc3; } else if a == 0x34 { w, s := 0xf3, 0x18; } else if a == 0x35 { w, s := 0x39, 0x96; }
    else if a == 0x36 { w, s := 0x66, 0x05; } else { w, s := 0x42, 0x9a; }
  }

  lemma Entries38(a: Byte) returns (w: bv8, s: Byte)
    requires 0x38 <= a < 0x40
    ensures Entry(a, w, s)
  {
    if a == 0x38 { w, s := 0xf2, 0x07; } else if a == 0x39 { w, s := 0x35, 0x12; } else if a == 0x3a { w, s := 0x20, 0x80; }
    else if a == 0x3b { w, s := 0x6f, 0xe2; } else if a == 0x3c { w, s := 0x77, 0xeb; } else if a == 0x3d { w, s := 0xbb, 0x27; }
    else if a == 0x3e { w, s := 0x59, 0xb2; } else { w, s := 0x19, 0x75; }
  }

  lemma Entries40(a: Byte) returns (w: bv8, s: Byte)
    requires 0x40 <= a < 0x48
    ensures Entry(a, w, s)
  {
    if a == 0x40 { w, s := 0x1d, 0x09; } else if a == 0x41 { w, s := 0xfe, 0x83; } else if a == 0x42 { w, s := 0x37, 0x2c; }
    else if a == 0x43 { w, s := 0x67, 0x1a; } else if a == 0x44 { w, s := 0x2d, 0x1b; } else if a == 0x45 { w, s := 0x31, 0x6e; }
    else if a == 0x46 { w, s := 0xf5, 0x5a; } else { w, s := 0x69, 0xa0; }
  }

  lemma Entries48(a: Byte) returns (w: bv8, s: Byte)
    requires 0x48 <= a < 0x50
    ensures Entry(a, w, s)
  {
    if a == 0x48 { w, s := 0xa7, 0x52; } else if a == 0x49 { w, s := 0x64, 0x3b; } else if a == 0x4a { w, s := 0xab, 0xd6; }
    else if a == 0x4b { w, s := 0x13, 0xb3; } else if a == 0x4c { w, s := 0x54, 0x29; } else if a == 0x4d { w, s := 0x25, 0xe3; }
    else if a == 0x4e { w, s := 0xe9, 0x2f; } else { w, s := 0x09, 0x84; }
  }

  lemma Entries50(a: Byte) returns (w: bv8, s: Byte)
    requires 0x50 <= a < 0x58
    ensures Entry(a, w, s)
  {
    if a == 0x50 { w, s := 0xed, 0x53; } else if a == 0x51 { w, s := 0x5c, 0xd1; } else if a == 0x52 { w, s := 0x05, 0x00; }
    else if a == 0x53 { w, s := 0xca, 0xed; } else if a == 0x54 { w, s := 0x4c, 0x20; } else if a == 0x55 { w, s := 0x24, 0xfc; }
    else if a == 0x56 { w, s := 0x87, 0xb1; } else { w, s := 0xbf, 0x5b; }
  }

  lemma Entries58(a: Byte) returns (w: bv8, s: Byte)
    requires 0x58 <= a < 0x60
    ensures Entry(a, w, s)
  {
    if a == 0x58 { w, s := 0x18, 0x6a; } else if a == 0x59 { w, s := 0x3e, 0xcb; } else if a == 0x5a { w, s := 0x22, 0xbe; }
    else if a == 0x5b { w, s := 0xf0, 0x39; } else if a == 0x5c { w, s := 0x51, 0x4a; } else if a == 0x5d { w, s := 0xec, 0x4c; }
    else if a == 0x5e { w, s := 0x61, 0x58; } else { w, s := 0x17, 0xcf; }
  }

  lemma Entries60(a: Byte) returns (w: bv8, s: Byte)
    requires 0x60 <= a < 0x68
    ensures Entry(a, w, s)
  {
    if a == 0x60 { w, s := 0x16, 0xd0; } else if a == 0x61 { w, s := 0x5e, 0xef; } else if a == 0x62 { w, s := 0xaf, 0xaa; }
    else if a == 0x63 { w, s := 0xd3, 0xfb; } else if a == 0x64 { w, s := 0x49, 0x43; } else if a == 0x65 { w, s := 0xa6, 0x4d; }
    else if a == 0x66 { w, s := 0x36, 0x33; } else { w, s := 0x43, 0x85; }
  }

  lemma Entries68(a: Byte) returns (w: bv8, s: Byte)
    requires 0x68 <= a < 0x70
    ensures Entry(a, w, s)
  {
    if a == 0x68 { w, s := 0xf4, 0x45; } else if a == 0x69 { w, s := 0x47, 0xf9; } else if a == 0x6a { w, s := 0x91, 0x02; }
    else if a == 0x6b { w, s := 0xdf, 0x7f; } else if a == 0x6c { w, s := 0x33, 0x50; } else if a == 0x6d { w, s := 0x93, 0x3c; }
    else if a == 0x6e { w, s := 0x21, 0x9f; } else { w, s := 0x3b, 0xa8; }
  }

  lemma Entries70(a: Byte) returns (w: bv8, s: Byte)
    requires 0x70 <= a < 0x78
    ensures Entry(a, w, s)
  {
    if a == 0x70 { w, s := 0x79, 0x51; } else if a == 0x71 { w, s := 0xb7, 0xa3; } else if a == 0x72 { w, s := 0x97, 0x40; }
    else if a == 0x73 { w, s := 0x85, 0x8f; } else if a == 0x74 { w, s := 0x10, 0x92; } else if a == 0x75 { w, s := 0xb5, 0x9d; }
    else if a == 0x76 { w, s := 0xba, 0x38; } else { w, s := 0x3c, 0xf5; }
  }

  lemma Entries78(a: Byte) returns (w: bv8, s: Byte)
    requires 0x78 <= a < 0x80
    ensures Entry(a, w, s)
  {
    if a == 0x78 { w, s := 0xb6, 0xbc; } else if a == 0x79 { w, s := 0x70, 0xb6; } else if a == 0x7a { w, s := 0xd0, 0xda; }
    else if a == 0x7b { w, s := 0x06, 0x21; } else if a == 0x7c { w, s := 0xa1, 0x10; } else if a == 0x7d { w, s := 0xfa, 0xff; }
    else if a == 0x7e { w, s := 0x81, 0xf3; } else { w, s := 0x82, 0xd2; }
  }

  lemma Entries80(a: Byte) returns (w: bv8, s: Byte)
    requires 0x80 <= a < 0x88
    ensures Entry(a, w, s)
  {
    if a == 0x80 { w, s := 0x83, 0xcd; } else if a == 0x81 { w, s := 0x7e, 0x0c; } else if a == 0x82 { w, s := 0x7f, 0x13; }
    else if a == 0x83 { w, s := 0x80, 0xec; } else if a == 0x84 { w, s := 0x96, 0x5f; } else if a == 0x85 { w, s := 0x73, 0x97; }
    else if a == 0x86 { w, s := 0xbe, 0x44; } else { w, s := 0x56, 0x17; }
  }

  lemma Entries88(a: Byte) returns (w: bv8, s: Byte)
    requires 0x88 <= a < 0x90
    ensures Entry(a, w, s)
  {
    if a == 0x88 { w, s := 0x9b, 0xc4; } else if a == 0x89 { w, s := 0x9e, 0xa7; } else if a == 0x8a { w, s := 0x95, 0x7e; }
    else if a == 0x8b { w, s := 0xd9, 0x3d; } else if a == 0x8c { w, s := 0xf7, 0x64; } else if a == 0x8d { w, s := 0x02, 0x5d; }
    else if a == 0x8e { w, s := 0xb9, 0x19; } else { w, s := 0xa4, 0x73; }
  }

  lemma Entries90(a: Byte) returns (w: bv8, s: Byte)
    requires 0x90 <= a < 0x98
    ensures Entry(a, w, s)
  {
    if a == 0x90 { w, s := 0xde, 0x60; } else if a == 0x91 { w, s := 0x6a, 0x81; } else if a == 0x92 { w, s := 0x32, 0x4f; }
    else if a == 0x93 { w, s := 0x6d, 0xdc; } else if a == 0x94 { w, s := 0xd8, 0x22; } else if a == 0x95 { w, s := 0x8a, 0x2a; }
    else if a == 0x96 { w, s := 0x84, 0x90; } else { w, s := 0x72, 0x88; }
  }

  lemma Entries98(a: Byte) returns (w: bv8, s: Byte)
    requires 0x98 <= a < 0xa0
    ensures Entry(a, w, s)
  {
    if a == 0x98 { w, s := 0x2a, 0x46; } else if a == 0x99 { w, s := 0x14, 0xee; } else if a == 0x9a { w, s := 0x9f, 0xb8; }
    else if a == 0x9b { w, s := 0x88, 0x14; } else if a == 0x9c { w, s := 0xf9, 0xde; } else if a == 0x9d { w, s := 0xdc, 0x5e; }
    else if a == 0x9e { w, s := 0x89, 0x0b; } else { w, s := 0x9a, 0xdb; }
  }

  lemma EntriesA0(a: Byte) returns (w: bv8, s: Byte)
    requires 0xa0 <= a < 0xa8
    ensures Entry(a, w, s)
  {
    if a == 0xa0 { w, s := 0xfb, 0xe0; } else if a == 0xa1 { w, s := 0x7c, 0x32; } else if a == 0xa2 { w, s := 0x2e, 0x3a; }
    else if a == 0xa3 { w, s := 0xc3, 0x0a; } else if a == 0xa4 { w, s := 0x8f, 0x49; } else if a == 0xa5 { w, s := 0xb8, 0x06; }
    else if a == 0xa6 { w, s := 0x65, 0x24; } else { w, s := 0x48, 0x5c; }
  }

  lemma EntriesA8(a: Byte) returns (w: bv8, s: Byte)
    requires 0xa8 <= a < 0xb0
    ensures Entry(a, w, s)
  {
    if a == 0xa8 { w, s := 0x26, 0xc2; } else if a == 0xa9 { w, s := 0xc8, 0xd3; } else if a == 0xaa { w, s := 0x12, 0xac; }
    else if a == 0xab { w, s := 0x4a, 0x62; } else if a == 0xac { w, s := 0xce, 0x91; } else if a == 0xad { w, s := 0xe7, 0x95; }
    else if a == 0xae { w, s := 0xd2, 0xe4; } else { w, s := 0x62, 0x79; }
  }

  lemma EntriesB0(a: Byte) returns (w: bv8, s: Byte)
    requires 0xb0 <= a < 0xb8
    ensures Entry(a, w, s)
  {
    if a == 0xb0 { w, s := 0x0c, 0xe7; } else if a == 0xb1 { w, s := 0xe0, 0xc8; } else if a == 0xb2 { w, s := 0x1f, 0x37; }
    else if a == 0xb3 { w, s := 0xef, 0x6d; } else if a == 0xb4 { w, s := 0x11, 0x8d; } else if a == 0xb5 { w, s := 0x75, 0xd5; }
    else if a == 0xb6 { w, s := 0x78, 0x4e; } else { w, s := 0x71, 0xa9; }
  }

  lemma EntriesB8(a: Byte) returns (w: bv8, s: Byte)
    requires 0xb8 <= a < 0xc0
    ensures Entry(a, w, s)
  {
    if a == 0xb8 { w, s := 0xa5, 0x6c; } else if a == 0xb9 { w, s := 0x8e, 0x56; } else if a == 0xba { w, s := 0x76, 0xf4; }
    else if a == 0xbb { w, s := 0x3d, 0xea; } else if a == 0xbc { w, s := 0xbd, 0x65; } else if a == 0xbd { w, s := 0xbc, 0x7a; }
    else if a == 0xbe { w, s := 0x86, 0xae; } else { w, s := 0x57, 0x08; }
  }

  lemma EntriesC0(a: Byte) returns (w: bv8, s: Byte)
    requires 0xc0 <= a < 0xc8
    ensures Entry(a, w, s)
  {
    if a == 0xc0 { w, s := 0x0b, 0xba; } else if a == 0xc1 { w, s := 0x28, 0x78; } else if a == 0xc2 { w, s := 0x2f, 0x25; }
    else if a == 0xc3 { w, s := 0xa3, 0x2e; } else if a == 0xc4 { w, s := 0xda, 0x1c; } else if a == 0xc5 { w, s := 0xd4, 0xa6; }
    else if a == 0xc6 { w, s := 0xe4, 0xb4; } else { w, s := 0x0f, 0xc6; }
  }

  lemma EntriesC8(a: Byte) returns (w: bv8, s: Byte)
    requires 0xc8 <= a < 0xd0
    ensures Entry(a, w, s)
  {
    if a == 0xc8 { w, s := 0xa9, 0xe8; } else if a == 0xc9 { w, s := 0x27, 0xdd; } else if a == 0xca { w, s := 0x53, 0x74; }
    else if a == 0xcb { w, s := 0x04, 0x1f; } else if a == 0xcc { w, s := 0x1b, 0x4b; } else if a == 0xcd { w, s := 0xfc, 0xbd; }
    else if a == 0xce { w, s := 0xac, 0x8b; } else { w, s := 0xe6, 0x8a; }
  }

  lemma EntriesD0(a: Byte) returns (w: bv8, s: Byte)
    requires 0xd0 <= a < 0xd8
    ensures Entry(a, w, s)
  {
    if a == 0xd0 { w, s := 0x7a, 0x70; } else if a == 0xd1 { w, s := 0x07, 0x3e; } else if a == 0xd2 { w, s := 0xae, 0xb5; }
    else if a == 0xd3 { w, s := 0x63, 0x66; } else if a == 0xd4 { w, s := 0xc5, 0x48; } else if a == 0xd5 { w, s := 0xdb, 0x03; }
    else if a == 0xd6 { w, s := 0xe2, 0xf6; } else { w, s := 0xea, 0x0e; }
  }

  lemma EntriesD8(a: Byte) returns (w: bv8, s: Byte)
    requires 0xd8 <= a < 0xe0
    ensures Entry(a, w, s)
  {
    if a == 0xd8 { w, s := 0x94, 0x61; } else if a == 0xd9 { w, s := 0x8b, 0x35; } else if a == 0xda { w, s := 0xc4, 0x57; }
    else if a == 0xdb { w, s := 0xd5, 0xb9; } else if a == 0xdc { w, s := 0x9d, 0x86; } else if a == 0xdd { w, s := 0xf8, 0xc1; }
    else if a == 0xde { w, s := 0x90, 0x1d; } else { w, s := 0x6b, 0x9e; }
  }

  lemma EntriesE0(a: Byte) returns (w: bv8, s: Byte)
    requires 0xe0 <= a < 0xe8
    ensures Entry(a, w, s)
  {
    if a == 0xe0 { w, s := 0xb1, 0xe1; } else if a == 0xe1 { w, s := 0x0d, 0xf8; } else if a == 0xe2 { w, s := 0xd6, 0x98; }
    else if a == 0xe3 { w, s := 0xeb, 0x11; } else if a == 0xe4 { w, s := 0xc6, 0x69; } else if a == 0xe5 { w, s := 0x0e, 0xd9; }
    else if a == 0xe6 { w, s := 0xcf, 0x8e; } else { w, s := 0xad, 0x94; }
  }

  lemma EntriesE8(a: Byte) returns (w: bv8, s: Byte)
    requires 0xe8 <= a < 0xf0
    ensures Entry(a, w, s)
  {
    if a == 0xe8 { w, s := 0x08, 0x9b; } else if a == 0xe9 { w, s := 0x4e, 0x1e; } else if a == 0xea { w, s := 0xd7, 0x87; }
    else if a == 0xeb { w, s := 0xe3, 0xe9; } else if a == 0xec { w, s := 0x5d, 0xce; } else if a == 0xed { w, s := 0x50, 0x55; }
    else if a == 0xee { w, s := 0x1e, 0x28; } else { w, s := 0xb3, 0xdf; }
  }

  lemma EntriesF0(a: Byte) returns (w: bv8, s: Byte)
    requires 0xf0 <= a < 0xf8
    ensures Entry(a, w, s)
  {
    if a == 0xf0 { w, s := 0x5b, 0x8c; } else if a == 0xf1 { w, s := 0x23, 0xa1; } else if a == 0xf2 { w, s := 0x38, 0x89; }
    else if a == 0xf3 { w, s := 0x34, 0x0d; } else if a == 0xf4 { w, s := 0x68, 0xbf; } else if a == 0xf5 { w, s := 0x46, 0xe6; }
    else if a == 0xf6 { w, s := 0x03, 0x42; } else { w, s := 0x8c, 0x68; }
  }

  lemma EntriesF8(a: Byte) returns (w: bv8, s: Byte)
    requires 0xf8 <= a < 0x100
    ensures Entry(a, w, s)
  {
    if a == 0xf8 { w, s := 0xdd, 0x41; } else if a == 0xf9 { w, s := 0x9c, 0x99; } else if a == 0xfa { w, s := 0x7d, 0x2d; }
    else if a == 0xfb { w, s := 0xa0, 0x0f; } else if a == 0xfc { w, s := 0xcd, 0xb0; } else if a == 0xfd { w, s := 0x1a, 0x54; }
    else if a == 0xfe { w, s := 0x41, 0xbb; } else { w, s := 0x1c, 0x16; }
  }

  lemma ZeroEntry()
    ensures Sub(0) == Value(Affine(0))
  {}

  /** A byte as a bit vector and back. */
  lemma ValueOf(a: Byte)
    ensures Value(a as bv8) == a
  {
    hide Nat, Value;
    NatOf(a);
    ValueIsNat(a as bv8);
  }

  function Nat(v: bv8): nat { v as nat }

  lemma NatOf(a: Byte)
    ensures Nat(a as bv8) == a
  {}

  lemma ValueIsNat(v: bv8)
    ensures Value(v) == Nat(v)
  {
    hide Nat, One, Value;
    LowHalves(v);
    HighHalves(v);
    Assembled(v, Nat(v), Nat(v >> 1), Nat(v >> 2), Nat(v >> 3), Nat(v >> 4), Nat(v >> 5), Nat(v >> 6), Nat(v >> 7));
  }

  lemma LowHalves(v: bv8)
    ensures Nat(v) == One(v & 0x01 != 0) + 2 * Nat(v >> 1) && Nat(v >> 1) == One(v & 0x02 != 0) + 2 * Nat(v >> 2)
    ensures Nat(v >> 2) == One(v & 0x04 != 0) + 2 * Nat(v >> 3) && Nat(v >> 3) == One(v & 0x08 != 0) + 2 * Nat(v >> 4)
  {
    hide Nat, One;
    HalfNat(v, v >> 1, v & 0x01 != 0);
    HalfNat(v >> 1, v >> 2, v & 0x02 != 0);
    HalfNat(v >> 2, v >> 3, v & 0x04 != 0);
    HalfNat(v >> 3, v >> 4, v & 0x08 != 0);
  }

  lemma HighHalves(v: bv8)
    ensures Nat(v >> 4) == One(v & 0x10 != 0) + 2 * Nat(v >> 5) && Nat(v >> 5) == One(v & 0x20 != 0) + 2 * Nat(v >> 6)
    ensures Nat(v >> 6) == One(v & 0x40 != 0) + 2 * Nat(v >> 7) && Nat(v >> 7) == One(v & 0x80 != 0)
  {
    hide Nat, One;
    NatOf(0);
    HalfNat(v >> 4, v >> 5, v & 0x10 != 0);
    HalfNat(v >> 5, v >> 6, v & 0x20 != 0);
    HalfNat(v >> 6, v >> 7, v & 0x40 != 0);
    HalfNat(v >> 7, 0, v & 0x80 != 0);
  }

  lemma HalfNat(v: bv8, half: bv8, bit: bool)
    requires half == v >> 1 && bit == (v & 0x01 != 0)
    ensures Nat(v) == One(bit) + 2 * Nat(half)
  {}

  lemma Assembled(v: bv8, n0: nat, n1: nat, n2: nat, n3: nat, n4: nat, n5: nat, n6: nat, n7: nat)
    requires n0 == One(v & 0x01 != 0) + 2 * n1 && n1 == One(v & 0x02 != 0) + 2 * n2
    requires n2 == One(v & 0x04 != 0) + 2 * n3 && n3 == One(v & 0x08 != 0) + 2 * n4
    requires n4 == One(v & 0x10 != 0) + 2 * n5 && n5 == One(v & 0x20 != 0) + 2 * n6
    requires n6 == One(v & 0x40 != 0) + 2 * n7 && n7 == One(v & 0x80 != 0)
    ensures Value(v) == n0
  {
    hide One;
  }

  lemma EntryAt(a: Byte) returns (w: bv8, s: Byte)
    requires a != 0
    ensures Entry(a, w, s)
  {
    hide Entry;
    if a < 0x08 { w, s := Entries00(a); }
    else if a < 0x10 { w, s := Entries08(a); }
    else if a < 0x18 { w, s := Entries10(a); }
    else if a < 0x20 { w, s := Entries18(a); }
    else if a < 0x28 { w, s := Entries20(a); }
    else if a < 0x30 { w, s := Entries28(a); }
    else if a < 0x38 { w, s := Entries30(a); }
    else if a < 0x40 { w, s := Entries38(a); }
    else if a < 0x48 { w, s := Entries40(a); }
    else if a < 0x50 { w, s := Entries48(a); }
    else if a < 0x58 { w, s := Entries50(a); }
    else if a < 0x60 { w, s := Entries58(a); }
    else if a < 0x68 { w, s := Entries60(a); }
    else if a < 0x70 { w, s := Entries68(a); }
    else if a < 0x78 { w, s := Entries70(a); }
    else if a < 0x80 { w, s := Entries78(a); }
    else if a < 0x88 { w, s := Entries80(a); }
    else if a < 0x90 { w, s := Entries88(a); }
    else if a < 0x98 { w, s := Entries90(a); }
    else if a < 0xa0 { w, s := Entries98(a); }
    else if a < 0xa8 { w, s := EntriesA0(a); }
    else if a < 0xb0 { w, s := EntriesA8(a); }
    else if a < 0xb8 { w, s := EntriesB0(a); }
    else if a < 0xc0 { w, s := EntriesB8(a); }
    else if a < 0xc8 { w, s := EntriesC0(a); }
    else if a < 0xd0 { w, s := EntriesC8(a); }
    else if a < 0xd8 { w, s := EntriesD0(a); }
    else if a < 0xe0 { w, s := EntriesD8(a); }
    else if a < 0xe8 { w, s := EntriesE0(a); }
    else if a < 0xf0 { w, s := EntriesE8(a); }
    else if a < 0xf8 { w, s := EntriesF0(a); }
    else { w, s := EntriesF8(a); }
  }

  lemma InverseUnique(a: Byte, b: Byte, c: Byte)
    requires IsInverse(a, b) && IsInverse(a, c)
    ensures b == c
  {
    hide Mul;
    if a != 0 {
      MulCommutes(a, b);
      MulAssociates(b, a, c);
      MulCommutes(b, 1);
      OneTimes(b);
      OneTimes(c);
    }
  }

  lemma ImageUnique(b: Byte, s: Byte, t: Byte)
    requires AffineImage(b, s) && AffineImage(b, t)
    ensures s == t
  {
    hide BitAt;
    SameBits(s, t);
  }

  /** Every byte but 0 has an inverse in the field, and the table holds its affine image. */
  lemma TableIsStandard(a: Byte) returns (b: Byte)
    ensures IsInverse(a, b) && AffineImage(b, Sub(a))
  {
    hide Mul, Value, Product, Affine, AffineImage, Sub;
    Constants();
    if a == 0 {
      b := 0;
      ZeroEntry();
      AffineIs(0);
    } else {
      var w, s := EntryAt(a);
      b := Value(w);
      ValueOf(a);
      ValueOf(s);
      ProductIs(a as bv8, w);
      AffineIs(w);
    }
  }

  /** The substitution table is the function section 5.1.1 of FIPS 197 defines. */
  lemma SubIff(a: Byte, s: Byte)
    ensures Sub(a) == s <==> exists b: Byte :: IsInverse(a, b) && AffineImage(b, s)
  {
    hide IsInverse, AffineImage, Sub;
    var b := TableIsStandard(a);
    forall c: Byte | IsInverse(a, c) && AffineImage(c, s) ensures s == Sub(a) {
      InverseUnique(a, b, c);
      ImageUnique(b, s, Sub(a));
    }
  }
}
