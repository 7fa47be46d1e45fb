/** Cipher and InvCipher as sections 5.1 and 5.3 of FIPS 197 write them, for the ten rounds of AES-128, and the proof
    that the cipher on blocks is theirs. */
module StandardCipher {
  import opened Words
  import opened Blocks
  import opened GaloisField
  import opened ColumnMatrices
  import opened SBoxes
  import opened KeySchedule
  import BlockCipher

  /** The state, column by column: s[c][r] stands in row r (section 3.4). */
  type State = s: seq<Word4> | |s| == 4 witness var w: Word4 := [0, 0, 0, 0]; [w, w, w, w]

  function Columns(b: Block): State { [b[0..4], b[4..8], b[8..12], b[12..16]] }

  function Bytes(s: State): Block {
    var a: seq<Byte>, b: seq<Byte>, c: seq<Byte>, d: seq<Byte> := s[0], s[1], s[2], s[3];
    a + b + c + d
  }

  function SubBytes(s: State): State { [SubWord(s[0]), SubWord(s[1]), SubWord(s[2]), SubWord(s[3])] }

  function InvSubWord(w: Word4): Word4 { [InvSub(w[0]), InvSub(w[1]), InvSub(w[2]), InvSub(w[3])] }

  function InvSubBytes(s: State): State { [InvSubWord(s[0]), InvSubWord(s[1]), InvSubWord(s[2]), InvSubWord(s[3])] }

  function ShiftRows(s: State): State {
    [[s[0][0], s[1][1], s[2][2], s[3][3]],
     [s[1][0], s[2][1], s[3][2], s[0][3]],
     [s[2][0], s[3][1], s[0][2], s[1][3]],
     [s[3][0], s[0][1], s[1][2], s[2][3]]]
  }

  function InvShiftRows(s: State): State {
    [[s[0][0], s[3][1], s[2][2], s[1][3]],
     [s[1][0], s[0][1], s[3][2], s[2][3]],
     [s[2][0], s[1][1], s[0][2], s[3][3]],
     [s[3][0], s[2][1], s[1][2], s[0][3]]]
  }

  /** A row of a matrix times a column. */
  function Dot(m: Word4, w: Word4): Byte {
    Add(Add(Add(Mul(m[0], w[0]), Mul(m[1], w[1])), Mul(m[2], w[2])), Mul(m[3], w[3]))
  }

  function Times(m: State, w: Word4): Word4 { seq(4, r requires 0 <= r < 4 => Dot(m[r], w)) }

  function TimesEach(m: State, s: State): State { seq(4, c requires 0 <= c < 4 => Times(m, s[c])) }

  /** The matrix of section 5.1.3, row by row. */
  const MIX: State := [[2, 3, 1, 1], [1, 2, 3, 1], [1, 1, 2, 3], [3, 1, 1, 2]]

  /** The matrix of section 5.3.3. */
  const INV_MIX: State :=
    [[0x0e, 0x0b, 0x0d, 0x09], [0x09, 0x0e, 0x0b, 0x0d], [0x0d, 0x09, 0x0e, 0x0b], [0x0b, 0x0d, 0x09, 0x0e]]

  function MixColumns(s: State): State { TimesEach(MIX, s) }

  function InvMixColumns(s: State): State { TimesEach(INV_MIX, s) }

  function AddRoundKey(s: State, k: Block): State {
    [XorWord(s[0], k[0..4]), XorWord(s[1], k[4..8]), XorWord(s[2], k[8..12]), XorWord(s[3], k[12..16])]
  }

  /** The eleven round keys of Nr = 10 rounds. */
  type Schedule = k: seq<Block> | |k| == 11 witness seq<Block>(11, _ => seq(16, _ => 0))

  function Round(s: State, k: Block): State { AddRoundKey(MixColumns(ShiftRows(SubBytes(s))), k) }

  /** Section 5.1: the last round does not mix columns. */
  function Cipher(input: Block, k: Schedule): Block {
    var s := AddRoundKey(Columns(input), k[0]);
    var s := Round(Round(Round(s, k[1]), k[2]), k[3]);
    var s := Round(Round(Round(s, k[4]), k[5]), k[6]);
    var s := Round(Round(Round(s, k[7]), k[8]), k[9]);
    Bytes(AddRoundKey(ShiftRows(SubBytes(s)), k[10]))
  }

  function InvRound(s: State, k: Block): State { InvMixColumns(AddRoundKey(InvSubBytes(InvShiftRows(s)), k)) }

  /** Section 5.3. */
  function InvCipher(input: Block, k: Schedule): Block {
    var s := AddRoundKey(Columns(input), k[10]);
    var s := InvRound(InvRound(InvRound(s, k[9]), k[8]), k[7]);
    var s := InvRound(InvRound(InvRound(s, k[6]), k[5]), k[4]);
    var s := InvRound(InvRound(InvRound(s, k[3]), k[2]), k[1]);
    Bytes(AddRoundKey(InvSubBytes(InvShiftRows(s)), k[0]))
  }

  /** The round keys the code expands. */
  function Expanded(key: Block): Schedule { seq(11, r requires r >= 0 => RoundKey(key, r)) }

  // ----- states and blocks

  lemma ColumnsAt(b: Block, c: nat, r: nat)
    requires c < 4 && r < 4
    ensures Columns(b)[c][r] == b[4 * c + r]
  {}

  lemma BytesOfColumns(b: Block)
    ensures Bytes(Columns(b)) == b
  {
    assert b == b[0..4] + b[4..8] + b[8..12] + b[12..16];
  }

  lemma SameState(s: State, t: State)
    requires forall c: nat, r: nat :: c < 4 && r < 4 ==> s[c][r] == t[c][r]
    ensures s == t
  {
    forall c: nat | c < 4 ensures s[c] == t[c] {
      forall r: nat | r < 4 ensures s[c][r] == t[c][r] {}
    }
  }

  // ----- each step is the one on blocks

  lemma Subbed(b: Block)
    ensures SubBytes(Columns(b)) == Columns(BlockCipher.Subbed(b))
    ensures InvSubBytes(Columns(b)) == Columns(BlockCipher.Unsubbed(b))
  {
    hide Sub, InvSub, BlockCipher.Subbed, BlockCipher.Unsubbed, Columns;
    var s := Columns(b);
    forall c: nat, r: nat | c < 4 && r < 4
      ensures SubBytes(s)[c][r] == Columns(BlockCipher.Subbed(b))[c][r]
      ensures InvSubBytes(s)[c][r] == Columns(BlockCipher.Unsubbed(b))[c][r]
    {
      ColumnsAt(b, c, r);
      ColumnsAt(BlockCipher.Subbed(b), c, r);
      ColumnsAt(BlockCipher.Unsubbed(b), c, r);
      BlockCipher.SubbedAt(b, 4 * c + r);
    }
    SameState(SubBytes(s), Columns(BlockCipher.Subbed(b)));
    SameState(InvSubBytes(s), Columns(BlockCipher.Unsubbed(b)));
  }

  lemma ShiftRowsAt(s: State, c: nat, r: nat)
    requires c < 4 && r < 4
    ensures ShiftRows(s)[c][r] == s[(c + r) % 4][r] && InvShiftRows(s)[c][r] == s[(c + 4 - r) % 4][r]
  {}

  lemma Shifted(b: Block)
    ensures ShiftRows(Columns(b)) == Columns(BlockCipher.Shifted(b))
    ensures InvShiftRows(Columns(b)) == Columns(BlockCipher.Unshifted(b))
  {
    hide ShiftRows, InvShiftRows, BlockCipher.Shifted, BlockCipher.Unshifted, Columns;
    hide BlockCipher.LeftSource, BlockCipher.RightSource;
    var s := Columns(b);
    forall c: nat, r: nat | c < 4 && r < 4
      ensures ShiftRows(s)[c][r] == Columns(BlockCipher.Shifted(b))[c][r]
      ensures InvShiftRows(s)[c][r] == Columns(BlockCipher.Unshifted(b))[c][r]
    {
      ShiftRowsAt(s, c, r);
      ColumnsAt(b, (c + r) % 4, r);
      ColumnsAt(b, (c + 4 - r) % 4, r);
      ColumnsAt(BlockCipher.Shifted(b), c, r);
      ColumnsAt(BlockCipher.Unshifted(b), c, r);
      BlockCipher.ShiftedAt(b, 4 * c + r);
      BlockCipher.LeftSourceAt(r, c);
      BlockCipher.RightSourceAt(r, c);
    }
    SameState(ShiftRows(s), Columns(BlockCipher.Shifted(b)));
    SameState(InvShiftRows(s), Columns(BlockCipher.Unshifted(b)));
  }

  lemma TimesAt(m: State, s: State, c: nat, r: nat)
    requires c < 4 && r < 4
    ensures TimesEach(m, s)[c][r] == Dot(m[r], s[c])
  {
    hide Dot;
  }

  lemma MixRow(w: Word4, r: nat)
    requires r < 4
    ensures Dot(MIX[r], w) == Mix(w[r], w[(r + 1) % 4], w[(r + 2) % 4], w[(r + 3) % 4])
  {
    hide Mul, Add;
    var a, b, c, d := w[r], w[(r + 1) % 4], w[(r + 2) % 4], w[(r + 3) % 4];
    MulCommutes(a, 2);
    MulCommutes(b, 3);
    OneTimes(c);
    OneTimes(d);
    Sum4Turns(Mul(2, a), Mul(3, b), c, d);
  }

  lemma InvMixRow(w: Word4, r: nat)
    requires r < 4
    ensures Dot(INV_MIX[r], w) == InvMix(w[r], w[(r + 1) % 4], w[(r + 2) % 4], w[(r + 3) % 4])
  {
    hide Mul, Add;
    var a, b, c, d := w[r], w[(r + 1) % 4], w[(r + 2) % 4], w[(r + 3) % 4];
    MulCommutes(a, 0x0e);
    MulCommutes(b, 0x0b);
    MulCommutes(c, 0x0d);
    MulCommutes(d, 0x09);
    Sum4Turns(Mul(0x0e, a), Mul(0x0b, b), Mul(0x0d, c), Mul(0x09, d));
  }

  lemma Mixed(b: Block)
    ensures MixColumns(Columns(b)) == Columns(BlockCipher.Mixed(b))
    ensures InvMixColumns(Columns(b)) == Columns(BlockCipher.Unmixed(b))
  {
    hide MixColumns, InvMixColumns, BlockCipher.Mixed, BlockCipher.Unmixed, Columns;
    var s := Columns(b);
    forall c: nat, r: nat | c < 4 && r < 4
      ensures MixColumns(s)[c][r] == Columns(BlockCipher.Mixed(b))[c][r]
      ensures InvMixColumns(s)[c][r] == Columns(BlockCipher.Unmixed(b))[c][r]
    {
      MixedCell(b, c, r);
    }
    SameState(MixColumns(s), Columns(BlockCipher.Mixed(b)));
    SameState(InvMixColumns(s), Columns(BlockCipher.Unmixed(b)));
  }

  lemma CellBelow(b: Block, c: nat, r: nat, d: nat)
    requires c < 4 && r < 4
    ensures Columns(b)[c][(r + d) % 4] == b[BlockCipher.Below(4 * c + r, d)]
  {
    hide Columns, BlockCipher.Below;
    ColumnsAt(b, c, (r + d) % 4);
    BlockCipher.Place(r, c);
    BlockCipher.BelowIs(4 * c + r, d);
  }

  lemma MixedCell(b: Block, c: nat, r: nat)
    requires c < 4 && r < 4
    ensures MixColumns(Columns(b))[c][r] == Columns(BlockCipher.Mixed(b))[c][r]
    ensures InvMixColumns(Columns(b))[c][r] == Columns(BlockCipher.Unmixed(b))[c][r]
  {
    hide Dot, Times, TimesEach, Mix, InvMix, BlockCipher.Mixed, BlockCipher.Unmixed, Columns, BlockCipher.Below;
    var s := Columns(b);
    TimesAt(MIX, s, c, r);
    TimesAt(INV_MIX, s, c, r);
    MixRow(s[c], r);
    InvMixRow(s[c], r);
    BlockCipher.MixedAt(b, 4 * c + r);
    CellBelow(b, c, r, 1);
    CellBelow(b, c, r, 2);
    CellBelow(b, c, r, 3);
    ColumnsAt(b, c, r);
    ColumnsAt(BlockCipher.Mixed(b), c, r);
    ColumnsAt(BlockCipher.Unmixed(b), c, r);
  }

  lemma AddRoundKeyAt(s: State, k: Block, c: nat, r: nat)
    requires c < 4 && r < 4
    ensures AddRoundKey(s, k)[c][r] == Add(s[c][r], k[4 * c + r])
  {
    hide Add;
  }

  lemma Keyed(b: Block, k: Block)
    ensures AddRoundKey(Columns(b), k) == Columns(BlockCipher.Keyed(b, k))
  {
    hide Add, AddRoundKey, BlockCipher.Keyed, Columns;
    var s := Columns(b);
    forall c: nat, r: nat | c < 4 && r < 4
      ensures AddRoundKey(s, k)[c][r] == Columns(BlockCipher.Keyed(b, k))[c][r]
    {
      AddRoundKeyAt(s, k, c, r);
      ColumnsAt(b, c, r);
      ColumnsAt(BlockCipher.Keyed(b, k), c, r);
      BlockCipher.KeyedAt(b, k, 4 * c + r);
    }
    SameState(AddRoundKey(s, k), Columns(BlockCipher.Keyed(b, k)));
  }

  // ----- the rounds

  lemma RoundOn(s: Block, k: Block)
    ensures Round(Columns(s), k)
      == Columns(BlockCipher.Keyed(BlockCipher.Mixed(BlockCipher.Shifted(BlockCipher.Subbed(s))), k))
  {
    hide SubBytes, ShiftRows, MixColumns, AddRoundKey, Columns;
    hide BlockCipher.Subbed, BlockCipher.Shifted, BlockCipher.Mixed, BlockCipher.Keyed;
    Subbed(s);
    Shifted(BlockCipher.Subbed(s));
    Mixed(BlockCipher.Shifted(BlockCipher.Subbed(s)));
    Keyed(BlockCipher.Mixed(BlockCipher.Shifted(BlockCipher.Subbed(s))), k);
  }

  lemma OneRound(key: Block, b: Block, r: nat)
    requires r > 0
    ensures Round(Columns(BlockCipher.Ciphered(key, b, r - 1)), RoundKey(key, r))
      == Columns(BlockCipher.Ciphered(key, b, r))
  {
    hide Round, Columns, RoundKey;
    hide BlockCipher.Subbed, BlockCipher.Shifted, BlockCipher.Mixed, BlockCipher.Keyed;
    RoundOn(BlockCipher.Ciphered(key, b, r - 1), RoundKey(key, r));
  }

  lemma LastRound(s: Block, k: Block)
    ensures Bytes(AddRoundKey(ShiftRows(SubBytes(Columns(s))), k))
      == BlockCipher.Keyed(BlockCipher.Shifted(BlockCipher.Subbed(s)), k)
    ensures Bytes(AddRoundKey(InvSubBytes(InvShiftRows(Columns(s))), k))
      == BlockCipher.Keyed(BlockCipher.Unsubbed(BlockCipher.Unshifted(s)), k)
  {
    hide SubBytes, ShiftRows, InvSubBytes, InvShiftRows, AddRoundKey, Columns, Bytes;
    hide BlockCipher.Subbed, BlockCipher.Shifted, BlockCipher.Unsubbed, BlockCipher.Unshifted, BlockCipher.Keyed;
    Subbed(s);
    Shifted(BlockCipher.Subbed(s));
    Keyed(BlockCipher.Shifted(BlockCipher.Subbed(s)), k);
    BytesOfColumns(BlockCipher.Keyed(BlockCipher.Shifted(BlockCipher.Subbed(s)), k));
    Shifted(s);
    Subbed(BlockCipher.Unshifted(s));
    Keyed(BlockCipher.Unsubbed(BlockCipher.Unshifted(s)), k);
    BytesOfColumns(BlockCipher.Keyed(BlockCipher.Unsubbed(BlockCipher.Unshifted(s)), k));
  }

  /** The code encrypts by the standard's cipher, with the round keys it expands. */
  lemma EncryptedIsCipher(key: Block, b: Block)
    ensures BlockCipher.Encrypted(key, b) == Cipher(b, Expanded(key))
  {
    hide Round, SubBytes, ShiftRows, AddRoundKey, Columns, Bytes, RoundKey, BlockCipher.Ciphered;
    FirstState(key, b);
    OneRound(key, b, 1); OneRound(key, b, 2); OneRound(key, b, 3);
    OneRound(key, b, 4); OneRound(key, b, 5); OneRound(key, b, 6);
    OneRound(key, b, 7); OneRound(key, b, 8); OneRound(key, b, 9);
    LastRound(BlockCipher.Ciphered(key, b, 9), RoundKey(key, 10));
  }

  lemma FirstState(key: Block, b: Block)
    ensures AddRoundKey(Columns(b), RoundKey(key, 0)) == Columns(BlockCipher.Ciphered(key, b, 0))
    ensures AddRoundKey(Columns(b), RoundKey(key, 10)) == Columns(BlockCipher.Deciphered(key, b, 10))
  {
    hide AddRoundKey, Columns, RoundKey, BlockCipher.Keyed;
    Keyed(b, RoundKey(key, 0));
    Keyed(b, RoundKey(key, 10));
  }

  lemma InvRoundOn(s: Block, k: Block)
    ensures InvRound(Columns(s), k)
      == Columns(BlockCipher.Unmixed(BlockCipher.Keyed(BlockCipher.Unsubbed(BlockCipher.Unshifted(s)), k)))
  {
    hide InvSubBytes, InvShiftRows, InvMixColumns, AddRoundKey, Columns;
    hide BlockCipher.Unsubbed, BlockCipher.Unshifted, BlockCipher.Unmixed, BlockCipher.Keyed;
    Shifted(s);
    Subbed(BlockCipher.Unshifted(s));
    Keyed(BlockCipher.Unsubbed(BlockCipher.Unshifted(s)), k);
    Mixed(BlockCipher.Keyed(BlockCipher.Unsubbed(BlockCipher.Unshifted(s)), k));
  }

  lemma OneInvRound(key: Block, t: Block, r: nat)
    requires r < 10
    ensures InvRound(Columns(BlockCipher.Deciphered(key, t, r + 1)), RoundKey(key, r))
      == Columns(BlockCipher.Deciphered(key, t, r))
  {
    hide InvRound, Columns, RoundKey;
    hide BlockCipher.Unsubbed, BlockCipher.Unshifted, BlockCipher.Unmixed, BlockCipher.Keyed;
    InvRoundOn(BlockCipher.Deciphered(key, t, r + 1), RoundKey(key, r));
  }

  /** It decrypts by the standard's inverse cipher. */
  lemma DecryptedIsInvCipher(key: Block, t: Block)
    ensures BlockCipher.Decrypted(key, t) == InvCipher(t, Expanded(key))
  {
    hide InvRound, InvSubBytes, InvShiftRows, AddRoundKey, Columns, Bytes, RoundKey, BlockCipher.Deciphered;
    FirstState(key, t);
    OneInvRound(key, t, 9); OneInvRound(key, t, 8); OneInvRound(key, t, 7);
    OneInvRound(key, t, 6); OneInvRound(key, t, 5); OneInvRound(key, t, 4);
    OneInvRound(key, t, 3); OneInvRound(key, t, 2); OneInvRound(key, t, 1);
    LastRound(BlockCipher.Deciphered(key, t, 1), RoundKey(key, 0));
  }
}
