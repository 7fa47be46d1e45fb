/** AES-128 on blocks: the round transformations and their inverses (sections 5.1 and 5.3 of FIPS 197). */
module BlockCipher {
  import opened Words
  import opened Blocks
  import opened GaloisField
  import opened ColumnMatrices
  import opened SBoxes
  import opened KeySchedule

  const ROUNDS := 10

  // ----- the round transformations; byte r + 4c of a block stands in row r, column c

  function SubbedByte(s: Block): nat --> Byte {
    (i: nat) requires i < 16 => Sub(s[i])
  }

  function Subbed(s: Block): Block { Filled(|s|, SubbedByte(s)) }

  function UnsubbedByte(s: Block): nat --> Byte {
    (i: nat) requires i < 16 => InvSub(s[i])
  }

  function Unsubbed(s: Block): Block { Filled(|s|, UnsubbedByte(s)) }

  /** The place row i % 4, column i / 4 is filled from when row r moves left by r. */
  function LeftSource(i: nat): (j: nat)
    requires i < 16
    ensures j < 16
  {
    i % 4 + 4 * ((i / 4 + i % 4) % 4)
  }

  function RightSource(i: nat): (j: nat)
    requires i < 16
    ensures j < 16
  {
    i % 4 + 4 * ((i / 4 + 4 - i % 4) % 4)
  }

  function ShiftedByte(s: Block): nat --> Byte {
    (i: nat) requires i < 16 => s[LeftSource(i)]
  }

  function Shifted(s: Block): Block { Filled(|s|, ShiftedByte(s)) }

  function UnshiftedByte(s: Block): nat --> Byte {
    (i: nat) requires i < 16 => s[RightSource(i)]
  }

  function Unshifted(s: Block): Block { Filled(|s|, UnshiftedByte(s)) }

  /** The place d rows below place i in its column, cyclically. */
  function Below(i: nat, d: nat): (j: nat)
    requires i < 16
    ensures j < 16
  {
    i / 4 * 4 + (i % 4 + d) % 4
  }

  function MixedByte(s: Block): nat --> Byte {
    (i: nat) requires i < 16 => Mix(s[i], s[Below(i, 1)], s[Below(i, 2)], s[Below(i, 3)])
  }

  function Mixed(s: Block): Block { Filled(|s|, MixedByte(s)) }

  function UnmixedByte(s: Block): nat --> Byte {
    (i: nat) requires i < 16 => InvMix(s[i], s[Below(i, 1)], s[Below(i, 2)], s[Below(i, 3)])
  }

  function Unmixed(s: Block): Block { Filled(|s|, UnmixedByte(s)) }

  function KeyedByte(s: Block, k: Block): nat --> Byte {
    (i: nat) requires i < 16 => Add(s[i], k[i])
  }

  function Keyed(s: Block, k: Block): Block { Filled(|s|, KeyedByte(s, k)) }

  // ----- each transformation is undone by its inverse, in either order

  lemma SubbedAt(s: Block, i: nat)
    requires i < 16
    ensures Subbed(s)[i] == Sub(s[i]) && Unsubbed(s)[i] == InvSub(s[i])
  {
    hide Sub, InvSub;
    FilledAt(|s|, SubbedByte(s), i);
    FilledAt(|s|, UnsubbedByte(s), i);
  }

  lemma SubbedInverse(s: Block)
    ensures Unsubbed(Subbed(s)) == s && Subbed(Unsubbed(s)) == s
  {
    hide Sub, InvSub, Subbed, Unsubbed;
    forall i: nat | i < 16 ensures Unsubbed(Subbed(s))[i] == s[i] && Subbed(Unsubbed(s))[i] == s[i] {
      SubbedAt(s, i);
      SubbedAt(Subbed(s), i);
      SubbedAt(Unsubbed(s), i);
      TablesInverse(s[i]);
    }
    SameBlock(Unsubbed(Subbed(s)), s);
    SameBlock(Subbed(Unsubbed(s)), s);
  }

  lemma SourcesInverse(i: nat)
    requires i < 16
    ensures LeftSource(RightSource(i)) == i && RightSource(LeftSource(i)) == i
  {
    hide LeftSource, RightSource;
    var r, c := i % 4, i / 4;
    Turns(r, c);
    LeftSourceAt(r, c);
    RightSourceAt(r, c);
    LeftSourceAt(r, (c + 4 - r) % 4);
    RightSourceAt(r, (c + r) % 4);
  }

  lemma LeftSourceAt(r: nat, c: nat)
    requires r < 4 && c < 4
    ensures LeftSource(r + 4 * c) == r + 4 * ((c + r) % 4)
  {}

  lemma RightSourceAt(r: nat, c: nat)
    requires r < 4 && c < 4
    ensures RightSource(r + 4 * c) == r + 4 * ((c + 4 - r) % 4)
  {}

  lemma Place(r: nat, c: nat)
    requires r < 4
    ensures (r + 4 * c) % 4 == r && (r + 4 * c) / 4 == c
  {}

  lemma Turns(r: nat, c: nat)
    requires r < 4 && c < 4
    ensures ((c + r) % 4 + 4 - r) % 4 == c && ((c + 4 - r) % 4 + r) % 4 == c
  {}

  lemma ShiftedAt(s: Block, i: nat)
    requires i < 16
    ensures Shifted(s)[i] == s[LeftSource(i)] && Unshifted(s)[i] == s[RightSource(i)]
  {
    hide LeftSource, RightSource;
    FilledAt(|s|, ShiftedByte(s), i);
    FilledAt(|s|, UnshiftedByte(s), i);
  }

  lemma ShiftedInverse(s: Block)
    ensures Unshifted(Shifted(s)) == s && Shifted(Unshifted(s)) == s
  {
    hide LeftSource, RightSource, Shifted, Unshifted;
    forall i: nat | i < 16 ensures Unshifted(Shifted(s))[i] == s[i] && Shifted(Unshifted(s))[i] == s[i] {
      ShiftedAt(Shifted(s), i);
      ShiftedAt(s, RightSource(i));
      ShiftedAt(Unshifted(s), i);
      ShiftedAt(s, LeftSource(i));
      SourcesInverse(i);
    }
    SameBlock(Unshifted(Shifted(s)), s);
    SameBlock(Shifted(Unshifted(s)), s);
  }

  lemma BelowTwice(i: nat, d: nat, e: nat)
    requires i < 16
    ensures Below(Below(i, d), e) == Below(i, d + e)
    ensures Below(i, d + 4) == Below(i, d) && Below(i, 0) == i
  {
    hide Below;
    BelowIs(i, d);
    BelowIs(Below(i, d), e);
    BelowIs(i, d + e);
    BelowIs(i, d + 4);
    BelowIs(i, 0);
    TurnTwice(i % 4, d, e);
  }

  lemma BelowIs(i: nat, d: nat)
    requires i < 16
    ensures Below(i, d) == (i % 4 + d) % 4 + 4 * (i / 4)
    ensures Below(i, d) % 4 == (i % 4 + d) % 4 && Below(i, d) / 4 == i / 4
  {
    Place((i % 4 + d) % 4, i / 4);
  }

  lemma TurnTwice(r: nat, d: nat, e: nat)
    ensures ((r + d) % 4 + e) % 4 == (r + d + e) % 4 && (r + d + 4) % 4 == (r + d) % 4
  {}

  /** Going down a column from any of its places passes the same four. */
  lemma Column(i: nat)
    requires i < 16
    ensures var j, k, l := Below(i, 1), Below(i, 2), Below(i, 3);
      && Below(j, 1) == k && Below(j, 2) == l && Below(j, 3) == i
      && Below(k, 1) == l && Below(k, 2) == i && Below(k, 3) == j
      && Below(l, 1) == i && Below(l, 2) == j && Below(l, 3) == k
  {
    hide Below;
    BelowTwice(i, 0, 0); BelowTwice(i, 1, 1); BelowTwice(i, 1, 2); BelowTwice(i, 1, 3);
    BelowTwice(i, 2, 1); BelowTwice(i, 2, 2); BelowTwice(i, 2, 3);
    BelowTwice(i, 3, 1); BelowTwice(i, 3, 2); BelowTwice(i, 3, 3);
  }

  lemma MixedAt(s: Block, i: nat)
    requires i < 16
    ensures Mixed(s)[i] == Mix(s[i], s[Below(i, 1)], s[Below(i, 2)], s[Below(i, 3)])
    ensures Unmixed(s)[i] == InvMix(s[i], s[Below(i, 1)], s[Below(i, 2)], s[Below(i, 3)])
  {
    hide Mix, InvMix, Below;
    FilledAt(|s|, MixedByte(s), i);
    FilledAt(|s|, UnmixedByte(s), i);
  }

  lemma MixedInverseAt(s: Block, i: nat)
    requires i < 16
    ensures Unmixed(Mixed(s))[i] == s[i] && Mixed(Unmixed(s))[i] == s[i]
  {
    hide Mix, InvMix, Below, Mixed, Unmixed;
    var j, k, l := Below(i, 1), Below(i, 2), Below(i, 3);
    Column(i);
    MixedAt(s, i);
    MixedAt(s, j);
    MixedAt(s, k);
    MixedAt(s, l);
    MixedAt(Mixed(s), i);
    MixedAt(Unmixed(s), i);
    InvMixOfMix(s[i], s[j], s[k], s[l]);
    MixOfInvMix(s[i], s[j], s[k], s[l]);
  }

  lemma MixedInverse(s: Block)
    ensures Unmixed(Mixed(s)) == s && Mixed(Unmixed(s)) == s
  {
    hide Mixed, Unmixed;
    forall i: nat | i < 16 ensures Unmixed(Mixed(s))[i] == s[i] && Mixed(Unmixed(s))[i] == s[i] {
      MixedInverseAt(s, i);
    }
    SameBlock(Unmixed(Mixed(s)), s);
    SameBlock(Mixed(Unmixed(s)), s);
  }

  lemma KeyedAt(s: Block, k: Block, i: nat)
    requires i < 16
    ensures Keyed(s, k)[i] == Add(s[i], k[i])
  {
    hide Add;
    FilledAt(|s|, KeyedByte(s, k), i);
  }

  lemma KeyedTwice(s: Block, k: Block)
    ensures Keyed(Keyed(s, k), k) == s
  {
    hide Add, Keyed;
    forall i: nat | i < 16 ensures Keyed(Keyed(s, k), k)[i] == s[i] {
      KeyedAt(s, k, i);
      KeyedAt(Keyed(s, k), k, i);
      AddedTwice(s[i], k[i]);
    }
    SameBlock(Keyed(Keyed(s, k), k), s);
  }

  // ----- the cipher

  /** The state after round r of encrypting b. */
  function Ciphered(key: Block, b: Block, r: nat): Block
    decreases r
  {
    if r == 0 then Keyed(b, RoundKey(key, 0))
    else Keyed(Mixed(Shifted(Subbed(Ciphered(key, b, r - 1)))), RoundKey(key, r))
  }

  function Encrypted(key: Block, b: Block): Block {
    Keyed(Shifted(Subbed(Ciphered(key, b, ROUNDS - 1))), RoundKey(key, ROUNDS))
  }

  /** The state of decrypting t when rounds 9 down to r are undone. */
  function Deciphered(key: Block, t: Block, r: nat): Block
    requires r <= ROUNDS
    decreases ROUNDS - r
  {
    if r == ROUNDS then Keyed(t, RoundKey(key, ROUNDS))
    else Unmixed(Keyed(Unsubbed(Unshifted(Deciphered(key, t, r + 1))), RoundKey(key, r)))
  }

  function Decrypted(key: Block, t: Block): Block {
    Keyed(Unsubbed(Unshifted(Deciphered(key, t, 1))), RoundKey(key, 0))
  }

  lemma SubShiftInverse(s: Block)
    ensures Unsubbed(Unshifted(Shifted(Subbed(s)))) == s
    ensures Shifted(Subbed(Unsubbed(Unshifted(s)))) == s
  {
    hide Subbed, Unsubbed, Shifted, Unshifted;
    ShiftedInverse(Subbed(s));
    SubbedInverse(s);
    SubbedInverse(Unshifted(s));
    ShiftedInverse(s);
  }

  /** Undoing rounds 9 down to r of an encryption leaves the substituted and shifted state of round r - 1. */
  lemma {:induction false} DecipheredMeets(key: Block, b: Block, r: nat)
    requires 0 < r <= ROUNDS
    ensures Deciphered(key, Encrypted(key, b), r) == Shifted(Subbed(Ciphered(key, b, r - 1)))
    decreases ROUNDS - r
  {
    hide Subbed, Unsubbed, Shifted, Unshifted, Mixed, Unmixed, Keyed, RoundKey;
    var s := Ciphered(key, b, r - 1);
    if r == ROUNDS {
      KeyedTwice(Shifted(Subbed(s)), RoundKey(key, ROUNDS));
    } else {
      DecipheredMeets(key, b, r + 1);
      SubShiftInverse(Ciphered(key, b, r));
      KeyedTwice(Mixed(Shifted(Subbed(s))), RoundKey(key, r));
      MixedInverse(Shifted(Subbed(s)));
    }
  }

  /** Decryption undoes encryption, for every key and block. */
  lemma DecryptEncrypted(key: Block, b: Block)
    ensures Decrypted(key, Encrypted(key, b)) == b
  {
    hide Subbed, Unsubbed, Shifted, Unshifted, Mixed, Unmixed, Keyed, RoundKey, Encrypted, Deciphered;
    DecipheredMeets(key, b, 1);
    SubShiftInverse(Ciphered(key, b, 0));
    KeyedTwice(b, RoundKey(key, 0));
  }

  lemma {:induction false} CipheredMeets(key: Block, t: Block, r: nat)
    requires r < ROUNDS
    ensures Unsubbed(Unshifted(Deciphered(key, t, r + 1))) == Ciphered(key, Decrypted(key, t), r)
    decreases r
  {
    hide Subbed, Unsubbed, Shifted, Unshifted, Mixed, Unmixed, Keyed, RoundKey;
    var s := Unsubbed(Unshifted(Deciphered(key, t, r + 1)));
    if r == 0 {
      KeyedTwice(s, RoundKey(key, 0));
    } else {
      CipheredMeets(key, t, r - 1);
      SubShiftInverse(Deciphered(key, t, r));
      MixedInverse(Keyed(s, RoundKey(key, r)));
      KeyedTwice(s, RoundKey(key, r));
    }
  }

  /** Encryption undoes decryption, for every key and block. */
  lemma EncryptDecrypted(key: Block, t: Block)
    ensures Encrypted(key, Decrypted(key, t)) == t
  {
    hide Subbed, Unsubbed, Shifted, Unshifted, Mixed, Unmixed, Keyed, RoundKey, Decrypted, Ciphered;
    CipheredMeets(key, t, ROUNDS - 1);
    SubShiftInverse(Deciphered(key, t, ROUNDS));
    KeyedTwice(t, RoundKey(key, ROUNDS));
  }
}
