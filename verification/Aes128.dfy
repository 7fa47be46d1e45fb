/** The AES-128 class: encryption and decryption in place on byte arrays. */
module Aes128 {
  import opened Words
  import opened Blocks
  import opened GaloisField
  import opened ColumnMatrices
  import opened SBoxes
  import opened KeySchedule
  import opened BlockCipher
  import StandardCipher

  // ----- the key schedule

  /** Byte m of the expanded key. */
  function ScheduleByte(key: Block, m: nat): Byte {
    RoundKey(key, m / 16)[m % 16]
  }

  /** The byte at i + d, in the word starting at i, from the word before and the word sixteen bytes back. */
  lemma WordStep(key: Block, i: nat, d: nat)
    requires i >= 16 && i % 4 == 0 && d < 4
    ensures ScheduleByte(key, i + d) == Add(ScheduleByte(key, i - 16 + d),
      if i % 16 == 0 then Scrambled(ScheduleByte(key, i - 4 + (d + 1) % 4), Rcon(i / 16), d)
      else ScheduleByte(key, i - 4 + d))
  {
    hide Rcon, Add, Scrambled, NextKey;
    var r, j := i / 16, i % 16 + d;
    var k := RoundKey(key, r - 1);
    Places(i, d);
    assert RoundKey(key, r) == NextKey(k, Rcon(r));
    NextKeyAt(k, Rcon(r), j);
    if j >= 4 { NextKeyAt(k, Rcon(r), j - 4); }
  }

  lemma Places(i: nat, d: nat)
    requires i >= 16 && i % 4 == 0 && d < 4
    ensures i % 16 + d < 16
    ensures (i + d) / 16 == i / 16 && (i + d) % 16 == i % 16 + d
    ensures (i - 16 + d) / 16 == i / 16 - 1 && (i - 16 + d) % 16 == i % 16 + d
    ensures i % 16 == 0 ==> (i - 4 + (d + 1) % 4) / 16 == i / 16 - 1 && (i - 4 + (d + 1) % 4) % 16 == 12 + (d + 1) % 4
    ensures i % 16 == 0 ==> Turned(d) == 12 + (d + 1) % 4
    ensures i % 16 != 0 ==> i % 16 >= 4 && (i - 4 + d) / 16 == i / 16 && (i - 4 + d) % 16 == i % 16 - 4 + d
  {}

  /** The first n bytes of the expanded key are in place. */
  ghost predicate Expanded(key: Block, bytes: seq<Byte>, n: nat)
    requires n <= |bytes|
  {
    forall m: nat {:trigger bytes[m]} :: m < n ==> bytes[m] == ScheduleByte(key, m)
  }

  lemma FirstKey(key: Block, m: nat)
    requires m < 16
    ensures ScheduleByte(key, m) == key[m]
  {}

  /** RotWord, SubWord and the round constant, on the first word of a round key. */
  method Scramble(temp: array<Byte>, r: nat)
    requires temp.Length == 4 && r > 0
    modifies temp
    ensures forall d: nat {:trigger temp[d]} :: d < 4 ==> temp[d] == Scrambled(old(temp[(d + 1) % 4]), Rcon(r), d)
  {
    hide Add, Sub, Rcon;
    var t := temp[0];
    temp[0] := temp[1];
    temp[1] := temp[2];
    temp[2] := temp[3];
    temp[3] := t;
    temp[0] := Sub(temp[0]);
    temp[1] := Sub(temp[1]);
    temp[2] := Sub(temp[2]);
    temp[3] := Sub(temp[3]);
    RconIsShift(r);
    temp[0] := Add(temp[0], Pow2(r - 1) % 256);
  }

  /** Writes the word at i from the word before it and the word sixteen bytes back. */
  method NextWord(ghost key: Block, roundKeys: array<Byte>, temp: array<Byte>, i: nat)
    requires temp.Length == 4 && roundKeys.Length == 176 && temp != roundKeys
    requires 16 <= i < 176 && i % 4 == 0
    requires Expanded(key, roundKeys[..], i)
    modifies temp, roundKeys
    ensures Expanded(key, roundKeys[..], i + 4)
  {
    hide Add, Rcon, ScheduleByte, Scrambled;
    temp[0], temp[1], temp[2], temp[3] := roundKeys[i - 4], roundKeys[i - 3], roundKeys[i - 2], roundKeys[i - 1];
    if i % 16 == 0 { Scramble(temp, i / 16); }
    roundKeys[i] := Add(roundKeys[i - 16], temp[0]);
    roundKeys[i + 1] := Add(roundKeys[i - 15], temp[1]);
    roundKeys[i + 2] := Add(roundKeys[i - 14], temp[2]);
    roundKeys[i + 3] := Add(roundKeys[i - 13], temp[3]);
    WordStep(key, i, 0);
    WordStep(key, i, 1);
    WordStep(key, i, 2);
    WordStep(key, i, 3);
  }

  method KeyExpansion(key: array<Byte>, roundKeys: array<Byte>)
    requires key.Length == 16 && roundKeys.Length == 176 && key != roundKeys
    modifies roundKeys
    ensures Expanded(key[..], roundKeys[..], 176)
  {
    hide ScheduleByte;
    ghost var k: Block := key[..];
    var j := 0;
    while j < 16
      invariant j <= 16 && key[..] == k && Expanded(k, roundKeys[..], j)
    {
      roundKeys[j] := key[j];
      FirstKey(k, j);
      j := j + 1;
    }
    var temp := new Byte[4];
    var i := 16;
    while i < 176
      invariant 16 <= i <= 176 && i % 4 == 0 && key[..] == k
      invariant fresh(temp) && Expanded(k, roundKeys[..], i)
    {
      NextWord(k, roundKeys, temp, i);
      i := i + 4;
    }
  }

  // ----- the round transformations in place

  method AddRoundKey(state: array<Byte>, roundKeys: array<Byte>, offset: nat)
    requires state.Length == 16 && offset + 16 <= roundKeys.Length && state != roundKeys
    modifies state
    ensures state[..] == Keyed(old(state[..]), roundKeys[offset..offset + 16])
  {
    hide Add, Keyed;
    ghost var s: Block := state[..];
    ghost var k: Block := roundKeys[offset..offset + 16];
    var i := 0;
    while i < 16
      invariant i <= 16
      invariant forall j: nat :: j < i ==> state[j] == Keyed(s, k)[j]
      invariant forall j: nat :: i <= j < 16 ==> state[j] == s[j]
    {
      state[i] := Add(state[i], roundKeys[offset + i]);
      KeyedAt(s, k, i);
      i := i + 1;
    }
    SameBlock(state[..], Keyed(s, k));
  }

  method SubBytes(state: array<Byte>)
    requires state.Length == 16
    modifies state
    ensures state[..] == Subbed(old(state[..]))
  {
    hide Sub, InvSub, Subbed, Unsubbed;
    ghost var s: Block := state[..];
    var i := 0;
    while i < 16
      invariant i <= 16
      invariant forall j: nat :: j < i ==> state[j] == Subbed(s)[j]
      invariant forall j: nat :: i <= j < 16 ==> state[j] == s[j]
    {
      state[i] := Sub(state[i]);
      SubbedAt(s, i);
      i := i + 1;
    }
    SameBlock(state[..], Subbed(s));
  }

  method InvSubBytes(state: array<Byte>)
    requires state.Length == 16
    modifies state
    ensures state[..] == Unsubbed(old(state[..]))
  {
    hide Sub, InvSub, Subbed, Unsubbed;
    ghost var s: Block := state[..];
    var i := 0;
    while i < 16
      invariant i <= 16
      invariant forall j: nat :: j < i ==> state[j] == Unsubbed(s)[j]
      invariant forall j: nat :: i <= j < 16 ==> state[j] == s[j]
    {
      state[i] := InvSub(state[i]);
      SubbedAt(s, i);
      i := i + 1;
    }
    SameBlock(state[..], Unsubbed(s));
  }

  lemma IsShifted(s: Block, t: Block)
    requires t[0] == s[0] && t[1] == s[5] && t[2] == s[10] && t[3] == s[15]
    requires t[4] == s[4] && t[5] == s[9] && t[6] == s[14] && t[7] == s[3]
    requires t[8] == s[8] && t[9] == s[13] && t[10] == s[2] && t[11] == s[7]
    requires t[12] == s[12] && t[13] == s[1] && t[14] == s[6] && t[15] == s[11]
    ensures t == Shifted(s)
  {
    hide Shifted, LeftSource;
    forall i: nat | i < 16 ensures t[i] == Shifted(s)[i] {
      ShiftedAt(s, i);
      LeftSources(i);
    }
    SameBlock(t, Shifted(s));
  }

  lemma LeftSources(i: nat)
    requires i < 16
    ensures LeftSource(i) == [0, 5, 10, 15, 4, 9, 14, 3, 8, 13, 2, 7, 12, 1, 6, 11][i]
  {}

  lemma IsUnshifted(s: Block, t: Block)
    requires t[0] == s[0] && t[1] == s[13] && t[2] == s[10] && t[3] == s[7]
    requires t[4] == s[4] && t[5] == s[1] && t[6] == s[14] && t[7] == s[11]
    requires t[8] == s[8] && t[9] == s[5] && t[10] == s[2] && t[11] == s[15]
    requires t[12] == s[12] && t[13] == s[9] && t[14] == s[6] && t[15] == s[3]
    ensures t == Unshifted(s)
  {
    hide Unshifted, RightSource;
    forall i: nat | i < 16 ensures t[i] == Unshifted(s)[i] {
      ShiftedAt(s, i);
      RightSources(i);
    }
    SameBlock(t, Unshifted(s));
  }

  lemma RightSources(i: nat)
    requires i < 16
    ensures RightSource(i) == [0, 13, 10, 7, 4, 1, 14, 11, 8, 5, 2, 15, 12, 9, 6, 3][i]
  {}

  method ShiftRows(state: array<Byte>)
    requires state.Length == 16
    modifies state
    ensures state[..] == Shifted(old(state[..]))
  {
    hide Shifted;
    ghost var s: Block := state[..];
    // Row 1
    var temp := state[1];
    state[1] := state[5];
    state[5] := state[9];
    state[9] := state[13];
    state[13] := temp;
    // Row 2
    temp := state[2];
    state[2] := state[10];
    state[10] := temp;
    temp := state[6];
    state[6] := state[14];
    state[14] := temp;
    // Row 3
    temp := state[3];
    state[3] := state[15];
    state[15] := state[11];
    state[11] := state[7];
    state[7] := temp;
    IsShifted(s, state[..]);
  }

  method InvShiftRows(state: array<Byte>)
    requires state.Length == 16
    modifies state
    ensures state[..] == Unshifted(old(state[..]))
  {
    hide Unshifted;
    ghost var s: Block := state[..];
    // Row 1
    var temp := state[13];
    state[13] := state[9];
    state[9] := state[5];
    state[5] := state[1];
    state[1] := temp;
    // Row 2
    temp := state[2];
    state[2] := state[10];
    state[10] := temp;
    temp := state[6];
    state[6] := state[14];
    state[14] := temp;
    // Row 3
    temp := state[7];
    state[7] := state[11];
    state[11] := state[15];
    state[15] := state[3];
    state[3] := temp;
    IsUnshifted(s, state[..]);
  }

  /** A column of the mixed state, with the products in the order the code adds them. */
  lemma MixedColumn(s: Block, i: nat)
    requires i < 4
    ensures var s0, s1, s2, s3 := s[4 * i], s[4 * i + 1], s[4 * i + 2], s[4 * i + 3];
      && Mixed(s)[4 * i] == Sum4(Mul(s0, 2), Mul(s1, 3), s2, s3)
      && Mixed(s)[4 * i + 1] == Sum4(s0, Mul(s1, 2), Mul(s2, 3), s3)
      && Mixed(s)[4 * i + 2] == Sum4(s0, s1, Mul(s2, 2), Mul(s3, 3))
      && Mixed(s)[4 * i + 3] == Sum4(Mul(s0, 3), s1, s2, Mul(s3, 2))
  {
    hide Mixed, Sum4, Mul, Below;
    var s0, s1, s2, s3 := s[4 * i], s[4 * i + 1], s[4 * i + 2], s[4 * i + 3];
    ColumnPlaces(i);
    MixedAt(s, 4 * i);
    MixedAt(s, 4 * i + 1);
    MixedAt(s, 4 * i + 2);
    MixedAt(s, 4 * i + 3);
    Sum4Turns(Mul(s1, 2), Mul(s2, 3), s3, s0);
    Sum4Turns(Mul(s2, 2), Mul(s3, 3), s0, s1);
    Sum4Turns(Mul(s3, 2), Mul(s0, 3), s1, s2);
  }

  lemma UnmixedColumn(s: Block, i: nat)
    requires i < 4
    ensures var s0, s1, s2, s3 := s[4 * i], s[4 * i + 1], s[4 * i + 2], s[4 * i + 3];
      && Unmixed(s)[4 * i] == Sum4(Mul(s0, 0x0e), Mul(s1, 0x0b), Mul(s2, 0x0d), Mul(s3, 0x09))
      && Unmixed(s)[4 * i + 1] == Sum4(Mul(s0, 0x09), Mul(s1, 0x0e), Mul(s2, 0x0b), Mul(s3, 0x0d))
      && Unmixed(s)[4 * i + 2] == Sum4(Mul(s0, 0x0d), Mul(s1, 0x09), Mul(s2, 0x0e), Mul(s3, 0x0b))
      && Unmixed(s)[4 * i + 3] == Sum4(Mul(s0, 0x0b), Mul(s1, 0x0d), Mul(s2, 0x09), Mul(s3, 0x0e))
  {
    hide Unmixed, Sum4, Mul, Below;
    var s0, s1, s2, s3 := s[4 * i], s[4 * i + 1], s[4 * i + 2], s[4 * i + 3];
    ColumnPlaces(i);
    MixedAt(s, 4 * i);
    MixedAt(s, 4 * i + 1);
    MixedAt(s, 4 * i + 2);
    MixedAt(s, 4 * i + 3);
    Sum4Turns(Mul(s1, 0x0e), Mul(s2, 0x0b), Mul(s3, 0x0d), Mul(s0, 0x09));
    Sum4Turns(Mul(s2, 0x0e), Mul(s3, 0x0b), Mul(s0, 0x0d), Mul(s1, 0x09));
    Sum4Turns(Mul(s3, 0x0e), Mul(s0, 0x0b), Mul(s1, 0x0d), Mul(s2, 0x09));
  }

  lemma BelowAt(r: nat, c: nat, d: nat)
    requires r < 4 && c < 4
    ensures Below(4 * c + r, d) == 4 * c + (r + d) % 4
  {}

  lemma ColumnPlaces(i: nat)
    requires i < 4
    ensures Below(4 * i, 1) == 4 * i + 1 && Below(4 * i, 2) == 4 * i + 2 && Below(4 * i, 3) == 4 * i + 3
    ensures Below(4 * i + 1, 1) == 4 * i + 2 && Below(4 * i + 1, 2) == 4 * i + 3 && Below(4 * i + 1, 3) == 4 * i
    ensures Below(4 * i + 2, 1) == 4 * i + 3 && Below(4 * i + 2, 2) == 4 * i && Below(4 * i + 2, 3) == 4 * i + 1
    ensures Below(4 * i + 3, 1) == 4 * i && Below(4 * i + 3, 2) == 4 * i + 1 && Below(4 * i + 3, 3) == 4 * i + 2
  {
    hide Below;
    BelowAt(0, i, 1); BelowAt(0, i, 2); BelowAt(0, i, 3);
    BelowAt(1, i, 1); BelowAt(1, i, 2); BelowAt(1, i, 3);
    BelowAt(2, i, 1); BelowAt(2, i, 2); BelowAt(2, i, 3);
    BelowAt(3, i, 1); BelowAt(3, i, 2); BelowAt(3, i, 3);
  }

  method MixColumns(state: array<Byte>)
    requires state.Length == 16
    modifies state
    ensures state[..] == Mixed(old(state[..]))
  {
    hide Mixed, Mul, Add;
    ghost var s: Block := state[..];
    var i := 0;
    while i < 4
      invariant i <= 4
      invariant forall j: nat :: j < 4 * i ==> state[j] == Mixed(s)[j]
      invariant forall j: nat :: 4 * i <= j < 16 ==> state[j] == s[j]
    {
      var s0, s1, s2, s3 := state[i * 4], state[i * 4 + 1], state[i * 4 + 2], state[i * 4 + 3];
      MixedColumn(s, i);
      var p := Multiply(s0, 2);
      var q := Multiply(s1, 3);
      state[i * 4] := Add(Add(Add(p, q), s2), s3);
      p := Multiply(s1, 2);
      q := Multiply(s2, 3);
      state[i * 4 + 1] := Add(Add(Add(s0, p), q), s3);
      p := Multiply(s2, 2);
      q := Multiply(s3, 3);
      state[i * 4 + 2] := Add(Add(Add(s0, s1), p), q);
      p := Multiply(s0, 3);
      q := Multiply(s3, 2);
      state[i * 4 + 3] := Add(Add(Add(p, s1), s2), q);
      i := i + 1;
    }
    SameBlock(state[..], Mixed(s));
  }

  method InvMixColumns(state: array<Byte>)
    requires state.Length == 16
    modifies state
    ensures state[..] == Unmixed(old(state[..]))
  {
    hide Unmixed, Mul, Add;
    ghost var s: Block := state[..];
    var i := 0;
    while i < 4
      invariant i <= 4
      invariant forall j: nat :: j < 4 * i ==> state[j] == Unmixed(s)[j]
      invariant forall j: nat :: 4 * i <= j < 16 ==> state[j] == s[j]
    {
      var s0, s1, s2, s3 := state[i * 4], state[i * 4 + 1], state[i * 4 + 2], state[i * 4 + 3];
      UnmixedColumn(s, i);
      var p := Multiply(s0, 0x0e);
      var q := Multiply(s1, 0x0b);
      var r := Multiply(s2, 0x0d);
      var t := Multiply(s3, 0x09);
      state[i * 4] := Add(Add(Add(p, q), r), t);
      p := Multiply(s0, 0x09);
      q := Multiply(s1, 0x0e);
      r := Multiply(s2, 0x0b);
      t := Multiply(s3, 0x0d);
      state[i * 4 + 1] := Add(Add(Add(p, q), r), t);
      p := Multiply(s0, 0x0d);
      q := Multiply(s1, 0x09);
      r := Multiply(s2, 0x0e);
      t := Multiply(s3, 0x0b);
      state[i * 4 + 2] := Add(Add(Add(p, q), r), t);
      p := Multiply(s0, 0x0b);
      q := Multiply(s1, 0x0d);
      r := Multiply(s2, 0x09);
      t := Multiply(s3, 0x0e);
      state[i * 4 + 3] := Add(Add(Add(p, q), r), t);
      i := i + 1;
    }
    SameBlock(state[..], Unmixed(s));
  }

  // ----- blocks

  lemma KeySlice(key: Block, bytes: seq<Byte>, r: nat)
    requires |bytes| == 176 && r <= 10 && Expanded(key, bytes, 176)
    ensures bytes[16 * r..16 * r + 16] == RoundKey(key, r)
  {
    hide RoundKey;
    var k: Block := bytes[16 * r..16 * r + 16];
    forall j: nat | j < 16 ensures k[j] == RoundKey(key, r)[j] {
      assert k[j] == bytes[16 * r + j];
      assert (16 * r + j) / 16 == r && (16 * r + j) % 16 == j;
    }
    SameBlock(k, RoundKey(key, r));
  }

  method CopyBlock(to: array<Byte>, from: array<Byte>)
    requires to.Length == 16 && from.Length == 16 && to != from
    modifies to
    ensures to[..] == from[..]
  {
    var i := 0;
    while i < 16
      invariant i <= 16 && to[..i] == from[..i]
    {
      to[i] := from[i];
      i := i + 1;
    }
    assert to[..] == to[..16] && from[..] == from[..16];
  }

  method EncryptBlock(block: array<Byte>, key: array<Byte>)
    requires block.Length == 16 && key.Length == 16
    modifies block
    ensures block[..] == Encrypted(old(key[..]), old(block[..]))
    ensures block[..] == StandardCipher.Cipher(old(block[..]), StandardCipher.Expanded(old(key[..])))
  {
    hide Keyed, Mixed, Shifted, Subbed, RoundKey, Expanded, StandardCipher.Cipher, StandardCipher.Expanded;
    ghost var k: Block := key[..];
    ghost var b: Block := block[..];
    StandardCipher.EncryptedIsCipher(k, b);
    var state := new Byte[16];
    var roundKeys := new Byte[176];
    CopyBlock(state, block);
    KeyExpansion(key, roundKeys);

    KeySlice(k, roundKeys[..], 0);
    AddRoundKey(state, roundKeys, 0);

    var round := 1;
    while round < 10
      invariant 1 <= round <= 10
      invariant state[..] == Ciphered(k, b, round - 1)
      invariant Expanded(k, roundKeys[..], 176)
    {
      SubBytes(state);
      ShiftRows(state);
      MixColumns(state);
      KeySlice(k, roundKeys[..], round);
      AddRoundKey(state, roundKeys, round * 16);
      round := round + 1;
    }

    SubBytes(state);
    ShiftRows(state);
    KeySlice(k, roundKeys[..], 10);
    AddRoundKey(state, roundKeys, 160);
    CopyBlock(block, state);
  }

  method DecryptBlock(block: array<Byte>, key: array<Byte>)
    requires block.Length == 16 && key.Length == 16
    modifies block
    ensures block[..] == Decrypted(old(key[..]), old(block[..]))
    ensures block[..] == StandardCipher.InvCipher(old(block[..]), StandardCipher.Expanded(old(key[..])))
  {
    hide Keyed, Unmixed, Unshifted, Unsubbed, RoundKey, Expanded, StandardCipher.InvCipher, StandardCipher.Expanded;
    ghost var k: Block := key[..];
    ghost var t: Block := block[..];
    StandardCipher.DecryptedIsInvCipher(k, t);
    var state := new Byte[16];
    var roundKeys := new Byte[176];
    CopyBlock(state, block);
    KeyExpansion(key, roundKeys);

    KeySlice(k, roundKeys[..], 10);
    AddRoundKey(state, roundKeys, 160);

    var round := 9;
    while round > 0
      invariant 0 <= round <= 9
      invariant state[..] == Deciphered(k, t, round + 1)
      invariant Expanded(k, roundKeys[..], 176)
    {
      InvShiftRows(state);
      InvSubBytes(state);
      KeySlice(k, roundKeys[..], round);
      AddRoundKey(state, roundKeys, round * 16);
      InvMixColumns(state);
      round := round - 1;
    }

    InvShiftRows(state);
    InvSubBytes(state);
    KeySlice(k, roundKeys[..], 0);
    AddRoundKey(state, roundKeys, 0);
    CopyBlock(block, state);
  }
}
