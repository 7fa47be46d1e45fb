/** The key schedule of the AES-128 class, one round key of sixteen bytes at a time. */
module KeySchedule {
  import opened Words
  import opened Blocks
  import opened GaloisField
  import opened SBoxes

  /** The byte 0x01 << (r - 1), which has lost its only bit from round 9 on. */
  function Rcon(r: nat): Byte
    requires r > 0
    decreases r
  {
    if r == 1 then 1 else Rcon(r - 1) * 2 % 256
  }

  /** Cutting off at each shift is cutting off once, as the code's cast does. */
  lemma {:induction false} RconIsShift(r: nat)
    requires r > 0
    ensures Rcon(r) == Pow2(r - 1) % 256
    ensures r <= 8 ==> Rcon(r) == Pow2(r - 1)
    ensures r > 8 ==> Rcon(r) == 0
    decreases r
  {
    hide Pow2;
    if r == 1 {
      FirstPower();
    } else {
      RconIsShift(r - 1);
      NextPower(r - 2);
      ByteDoubled(Rcon(r - 1), Pow2(r - 2));
    }
  }

  lemma FirstPower()
    ensures Pow2(0) == 1
  {}

  lemma NextPower(k: nat)
    ensures Pow2(k + 1) == 2 * Pow2(k)
    ensures k < 7 ==> Pow2(k) < 128
    ensures k == 7 ==> Pow2(k) == 128
  {
    if k < 7 { Pow2Mono(k, 6); }
    assert Pow2(6) == 64 && Pow2(7) == 128;
  }

  lemma ByteDoubled(c: Byte, p: nat)
    requires c == p % 256
    ensures c * 2 % 256 == 2 * p % 256
    ensures p < 128 ==> c * 2 % 256 == 2 * p
    ensures p == 128 || c == 0 ==> c * 2 % 256 == 0
  {
    assert p == p / 256 * 256 + c;
    EuclidUnique(2 * p, 256, p / 256 * 2 + c * 2 / 256, c * 2 % 256);
  }

  /** The place byte j of RotWord comes from, in the last word of a round key. */
  function Turned(j: nat): (i: nat)
    requires j < 4
    ensures 12 <= i < 16
  {
    if j == 3 then 12 else 13 + j
  }

  /** Byte j of SubWord(RotWord(w)) ^ rcon, b being byte j of RotWord(w). */
  function Scrambled(b: Byte, rcon: Byte, j: nat): Byte {
    if j == 0 then Add(Sub(b), rcon) else Sub(b)
  }

  /** Byte j of the round key after k. */
  function NextByte(k: Block, rcon: Byte, j: nat): Byte
    requires j < 16
    decreases j, k
  {
    if j < 4 then Add(k[j], Scrambled(k[Turned(j)], rcon, j)) else Add(k[j], NextByte(k, rcon, j - 4))
  }

  function NextBytes(k: Block, rcon: Byte): nat --> Byte {
    j requires j < 16 => NextByte(k, rcon, j)
  }

  function NextKey(k: Block, rcon: Byte): Block {
    Filled(|k|, NextBytes(k, rcon))
  }

  lemma NextKeyAt(k: Block, rcon: Byte, j: nat)
    requires j < 16
    ensures NextKey(k, rcon)[j] == NextByte(k, rcon, j)
  {
    FilledAt(|k|, NextBytes(k, rcon), j);
  }

  function RoundKey(key: Block, r: nat): Block {
    if r == 0 then key else NextKey(RoundKey(key, r - 1), Rcon(r))
  }

  // ----- the schedule runs backwards

  function PreviousByte(n: Block, rcon: Byte, j: nat): Byte
    requires j < 16
    decreases 16 - j, n
  {
    if j < 4 then Add(n[j], Scrambled(PreviousByte(n, rcon, Turned(j)), rcon, j)) else Add(n[j], n[j - 4])
  }

  function PreviousBytes(n: Block, rcon: Byte): nat --> Byte {
    j requires j < 16 => PreviousByte(n, rcon, j)
  }

  function PreviousKey(n: Block, rcon: Byte): Block {
    Filled(|n|, PreviousBytes(n, rcon))
  }

  lemma PreviousKeyAt(n: Block, rcon: Byte, j: nat)
    requires j < 16
    ensures PreviousKey(n, rcon)[j] == PreviousByte(n, rcon, j)
  {
    FilledAt(|n|, PreviousBytes(n, rcon), j);
  }

  /** The cipher key whose round key r is n. */
  function CipherKey(n: Block, r: nat): Block
    decreases r
  {
    if r == 0 then n else CipherKey(PreviousKey(n, Rcon(r)), r - 1)
  }

  lemma AddedTwice(a: Byte, b: Byte)
    ensures Add(Add(a, b), b) == a
  {
    AddLaws(a, b, 0);
  }

  lemma PreviousByteOfNext(k: Block, rcon: Byte, j: nat)
    requires j < 16
    ensures PreviousByte(NextKey(k, rcon), rcon, j) == k[j]
    decreases 16 - j
  {
    NextKeyAt(k, rcon, j);
    if j < 4 {
      PreviousByteOfNext(k, rcon, Turned(j));
      AddedTwice(k[j], Scrambled(k[Turned(j)], rcon, j));
    } else {
      NextKeyAt(k, rcon, j - 4);
      AddedTwice(k[j], NextByte(k, rcon, j - 4));
    }
  }

  /** Each step of the schedule can be undone. */
  lemma PreviousOfNext(k: Block, rcon: Byte)
    ensures PreviousKey(NextKey(k, rcon), rcon) == k
  {
    forall j: nat | j < 16 ensures PreviousKey(NextKey(k, rcon), rcon)[j] == k[j] {
      PreviousKeyAt(NextKey(k, rcon), rcon, j);
      PreviousByteOfNext(k, rcon, j);
    }
    SameBlock(PreviousKey(NextKey(k, rcon), rcon), k);
  }

  lemma {:induction false} NextByteOfPrevious(n: Block, rcon: Byte, j: nat)
    requires j < 16
    ensures NextByte(PreviousKey(n, rcon), rcon, j) == n[j]
    decreases j
  {
    PreviousKeyAt(n, rcon, j);
    if j < 4 {
      PreviousKeyAt(n, rcon, Turned(j));
      AddedTwice(n[j], Scrambled(PreviousByte(n, rcon, Turned(j)), rcon, j));
    } else {
      NextByteOfPrevious(n, rcon, j - 4);
      AddedTwice(n[j], n[j - 4]);
    }
  }

  lemma NextOfPrevious(n: Block, rcon: Byte)
    ensures NextKey(PreviousKey(n, rcon), rcon) == n
  {
    forall j: nat | j < 16 ensures NextKey(PreviousKey(n, rcon), rcon)[j] == n[j] {
      NextKeyAt(PreviousKey(n, rcon), rcon, j);
      NextByteOfPrevious(n, rcon, j);
    }
    SameBlock(NextKey(PreviousKey(n, rcon), rcon), n);
  }

  /** The map from cipher key to round key r is a bijection: CipherKey is its inverse. */
  lemma {:induction false} RoundKeyBijective(k: Block, r: nat)
    ensures CipherKey(RoundKey(k, r), r) == k
    ensures RoundKey(CipherKey(k, r), r) == k
    decreases r
  {
    hide NextKey, PreviousKey, Rcon;
    if r > 0 {
      var a, c := RoundKey(k, r - 1), Rcon(r);
      var n := NextKey(a, c);
      assert CipherKey(n, r) == CipherKey(PreviousKey(n, c), r - 1);
      PreviousOfNext(a, c);
      RoundKeyBijective(k, r - 1);
      var p := PreviousKey(k, c);
      assert RoundKey(CipherKey(p, r - 1), r) == NextKey(RoundKey(CipherKey(p, r - 1), r - 1), c);
      RoundKeyBijective(p, r - 1);
      NextOfPrevious(k, c);
    }
  }

  // ----- the schedule of section 5.2 of FIPS 197, by its own word recurrence

  type Word4 = w: seq<Byte> | |w| == 4 witness seq(4, _ => 0)

  function RotWord(w: Word4): Word4 { [w[1], w[2], w[3], w[0]] }

  function SubWord(w: Word4): Word4 { [Sub(w[0]), Sub(w[1]), Sub(w[2]), Sub(w[3])] }

  function XorWord(v: Word4, w: Word4): Word4 {
    [Add(v[0], w[0]), Add(v[1], w[1]), Add(v[2], w[2]), Add(v[3], w[3])]
  }

  /** Word w[i] of the expanded key. */
  function StandardWord(key: Block, i: nat): Word4
    decreases i, key
  {
    if i < 4 then key[4 * i..4 * i + 4]
    else if i % 4 == 0 then
      XorWord(StandardWord(key, i - 4),
        XorWord(SubWord(RotWord(StandardWord(key, i - 1))), [StandardRcon(i / 4), 0, 0, 0]))
    else XorWord(StandardWord(key, i - 4), StandardWord(key, i - 1))
  }

  /** The round key of four words. */
  function StandardRoundKey(key: Block, r: nat): Block {
    StandardWord(key, 4 * r) + StandardWord(key, 4 * r + 1) + StandardWord(key, 4 * r + 2)
      + StandardWord(key, 4 * r + 3)
  }

  /** The round constant of the standard: x^(r-1) in the field. */
  function StandardRcon(r: nat): Byte
    requires r > 0
  {
    Double(1, r - 1)
  }

  /** The code's step with the standard's constants. */
  function ChainedKey(key: Block, r: nat): Block {
    if r == 0 then key else NextKey(ChainedKey(key, r - 1), StandardRcon(r))
  }

  lemma XorWordAt(v: Word4, w: Word4, d: nat)
    requires d < 4
    ensures XorWord(v, w)[d] == Add(v[d], w[d])
  {
    hide Add;
  }

  lemma TurnedSubstituted(w: Word4, d: nat)
    requires d < 4
    ensures SubWord(RotWord(w))[d] == Sub(w[(d + 1) % 4])
  {
    hide Sub;
  }

  lemma FirstWordByte(key: Block, r: nat, d: nat)
    requires r > 0 && d < 4
    ensures StandardWord(key, 4 * r)[d]
      == Add(StandardWord(key, 4 * (r - 1))[d],
        Scrambled(StandardWord(key, 4 * (r - 1) + 3)[(d + 1) % 4], StandardRcon(r), d))
  {
    hide Add, Sub, StandardRcon, StandardWord, XorWord, SubWord, RotWord;
    var first, last := StandardWord(key, 4 * (r - 1)), StandardWord(key, 4 * (r - 1) + 3);
    FirstWord(key, r);
    var s := SubWord(RotWord(last));
    XorWordAt(first, XorWord(s, [StandardRcon(r), 0, 0, 0]), d);
    XorWordAt(s, [StandardRcon(r), 0, 0, 0], d);
    TurnedSubstituted(last, d);
    AddZero(s[d]);
  }

  lemma FirstWord(key: Block, r: nat)
    requires r > 0
    ensures StandardWord(key, 4 * r)
      == XorWord(StandardWord(key, 4 * (r - 1)),
        XorWord(SubWord(RotWord(StandardWord(key, 4 * (r - 1) + 3))), [StandardRcon(r), 0, 0, 0]))
  {
    hide XorWord, SubWord, RotWord, StandardRcon;
    assert 4 * r % 4 == 0 && 4 * r / 4 == r && 4 * r - 4 == 4 * (r - 1) && 4 * r - 1 == 4 * (r - 1) + 3;
  }

  lemma LaterWord(key: Block, r: nat, c: nat)
    requires r > 0 && 0 < c < 4
    ensures StandardWord(key, 4 * r + c)
      == XorWord(StandardWord(key, 4 * (r - 1) + c), StandardWord(key, 4 * r + (c - 1)))
  {
    hide XorWord, SubWord, RotWord, StandardRcon;
    assert (4 * r + c) % 4 == c && 4 * r + c - 4 == 4 * (r - 1) + c;
  }

  /** The chained keys are the standard's schedule: byte d of word 4r + c is byte 4c + d of round key r. */
  lemma {:induction false} ChainedByte(key: Block, r: nat, c: nat, d: nat)
    requires c < 4 && d < 4
    ensures StandardWord(key, 4 * r + c)[d] == ChainedKey(key, r)[4 * c + d]
    decreases r, c
  {
    hide Add, Scrambled, StandardRcon, StandardWord, ChainedKey;
    if r == 0 {
      FirstBytes(key, c, d);
    } else {
      ChainedNext(key, r, c, d);
      ChainedByte(key, r - 1, c, d);
      if c == 0 {
        ChainedByte(key, r - 1, 3, (d + 1) % 4);
      } else {
        ChainedByte(key, r, c - 1, d);
      }
      ChainedStep(key, r, c, d);
    }
  }

  lemma FirstBytes(key: Block, c: nat, d: nat)
    requires c < 4 && d < 4
    ensures StandardWord(key, c)[d] == ChainedKey(key, 0)[4 * c + d]
  {}

  lemma ChainedNext(key: Block, r: nat, c: nat, d: nat)
    requires r > 0 && c < 4 && d < 4
    ensures var k, n := ChainedKey(key, r - 1), ChainedKey(key, r);
      n[4 * c + d] == if c == 0 then Add(k[d], Scrambled(k[12 + (d + 1) % 4], StandardRcon(r), d))
        else Add(k[4 * c + d], n[4 * (c - 1) + d])
  {
    hide Add, Scrambled, StandardRcon, NextKey;
    var k := ChainedKey(key, r - 1);
    NextKeyAt(k, StandardRcon(r), 4 * c + d);
    if c == 0 { assert Turned(d) == 12 + (d + 1) % 4; } else { NextKeyAt(k, StandardRcon(r), 4 * (c - 1) + d); }
  }

  lemma ChainedStep(key: Block, r: nat, c: nat, d: nat)
    requires r > 0 && c < 4 && d < 4
    ensures StandardWord(key, 4 * r + c)[d] == if c == 0
      then Add(StandardWord(key, 4 * (r - 1))[d],
        Scrambled(StandardWord(key, 4 * (r - 1) + 3)[(d + 1) % 4], StandardRcon(r), d))
      else Add(StandardWord(key, 4 * (r - 1) + c)[d], StandardWord(key, 4 * r + (c - 1))[d])
  {
    hide Add, Scrambled, StandardRcon, StandardWord, XorWord;
    if c == 0 {
      FirstWordByte(key, r, d);
    } else {
      LaterWord(key, r, c);
      XorWordAt(StandardWord(key, 4 * (r - 1) + c), StandardWord(key, 4 * r + (c - 1)), d);
    }
  }

  lemma AddZero(a: Byte)
    ensures Add(a, 0) == a
  {}

  lemma ChainedIsStandard(key: Block, r: nat)
    ensures ChainedKey(key, r) == StandardRoundKey(key, r)
  {
    hide ChainedKey, StandardWord;
    forall j: nat | j < 16 ensures ChainedKey(key, r)[j] == StandardRoundKey(key, r)[j] {
      ChainedByte(key, r, j / 4, j % 4);
    }
    SameBlock(ChainedKey(key, r), StandardRoundKey(key, r));
  }

  // ----- agreement with the standard

  lemma {:induction false} EarlyKeysAgree(key: Block, r: nat)
    requires r <= 8
    ensures RoundKey(key, r) == ChainedKey(key, r)
    decreases r
  {
    hide NextKey, Rcon, StandardRcon;
    if r > 0 {
      RconsAgree(r);
      EarlyKeysAgree(key, r - 1);
    }
  }

  lemma RconsAgree(r: nat)
    requires 0 < r <= 8
    ensures Rcon(r) == StandardRcon(r)
  {
    hide Rcon, Pow2, Double;
    RconIsShift(r);
    OneDoubled(r - 1);
  }

  /** The two constants the code loses. */
  lemma LateRcons()
    ensures Rcon(9) == 0 && StandardRcon(9) == 0x1b
    ensures Rcon(10) == 0
  {
    hide Rcon, Add;
    RconIsShift(9);
    RconIsShift(10);
    OneDoubled(7);
    assert Pow2(7) == 128;
    XtimeOfTop();
  }

  lemma XtimeOfTop()
    ensures Xtime(128) == 0x1b
  {}

  /** Different addends give different sums. */
  lemma Cancels(a: Byte, b: Byte, c: Byte)
    requires Add(a, b) == Add(a, c)
    ensures b == c
  {
    hide Add;
    AddLaws(b, a, 0);
    AddLaws(c, a, 0);
  }

  lemma SubDistinct(a: Byte, b: Byte)
    requires Sub(a) == Sub(b)
    ensures a == b
  {
    hide Sub, InvSub;
    TablesInverse(a);
    TablesInverse(b);
  }

  /** Another round constant changes the first byte of every word of the next key, and no other byte. */
  lemma {:induction false} OtherRcon(k: Block, s: Byte, t: Byte, j: nat)
    requires s != t && j < 16
    ensures (NextByte(k, s, j) == NextByte(k, t, j)) == (j % 4 != 0)
    decreases j
  {
    hide Add, Sub;
    if j >= 4 {
      OtherRcon(k, s, t, j - 4);
      if NextByte(k, s, j) == NextByte(k, t, j) { Cancels(k[j], NextByte(k, s, j - 4), NextByte(k, t, j - 4)); }
    } else if j == 0 && NextByte(k, s, j) == NextByte(k, t, j) {
      Cancels(k[0], Scrambled(k[13], s, 0), Scrambled(k[13], t, 0));
      Cancels(Sub(k[13]), s, t);
    }
  }

  /** Keys that differ exactly in the first byte of each word lead to different next keys, whatever the constants. */
  lemma OtherKey(k: Block, l: Block, s: Byte, t: Byte)
    requires forall j: nat :: j < 16 ==> (k[j] == l[j]) == (j % 4 != 0)
    ensures NextByte(k, s, 3) != NextByte(l, t, 3)
  {
    hide Add, Sub;
    if NextByte(k, s, 3) == NextByte(l, t, 3) {
      Cancels(k[3], Sub(k[12]), Sub(l[12]));
      SubDistinct(k[12], l[12]);
    }
  }

  lemma NinthKeysDiffer(key: Block, j: nat)
    requires j < 16
    ensures (RoundKey(key, 9)[j] == ChainedKey(key, 9)[j]) == (j % 4 != 0)
  {
    hide NextKey, Rcon, StandardRcon, NextByte;
    EarlyKeysAgree(key, 8);
    LateRcons();
    var k, s, t := RoundKey(key, 8), Rcon(9), StandardRcon(9);
    assert RoundKey(key, 9) == NextKey(k, s);
    assert ChainedKey(key, 9) == NextKey(k, t);
    NextKeyAt(k, s, j);
    NextKeyAt(k, t, j);
    OtherRcon(k, s, t, j);
  }

  lemma TenthKeysDiffer(key: Block)
    ensures RoundKey(key, 10)[3] != ChainedKey(key, 10)[3]
  {
    hide NextKey, Rcon, StandardRcon, NextByte;
    var k, l, s, t := RoundKey(key, 9), ChainedKey(key, 9), Rcon(10), StandardRcon(10);
    assert RoundKey(key, 10) == NextKey(k, s);
    assert ChainedKey(key, 10) == NextKey(l, t);
    forall j: nat | j < 16 ensures (k[j] == l[j]) == (j % 4 != 0) {
      NinthKeysDiffer(key, j);
    }
    OtherKey(k, l, s, t);
    NextKeyAt(k, s, 3);
    NextKeyAt(l, t, 3);
  }

  /** For every cipher key the code's round key is that of the standard exactly up to round 8. */
  lemma AgreesWithStandard(key: Block, r: nat)
    requires r <= 10
    ensures RoundKey(key, r) == StandardRoundKey(key, r) <==> r <= 8
  {
    hide RoundKey, ChainedKey, StandardRoundKey;
    ChainedIsStandard(key, r);
    if r <= 8 {
      EarlyKeysAgree(key, r);
    } else if r == 9 {
      NinthKeysDiffer(key, 0);
    } else {
      TenthKeysDiffer(key);
    }
  }
}
