/** The two AES substitution tables, sixteen entries a row. */
module SBoxes {

  import opened Words

  const S_BOX: seq<seq<Byte>> := [
    [0x63, 0x7c, 0x77, 0x7b, 0xf2, 0x6b, 0x6f, 0xc5, 0x30, 0x01, 0x67, 0x2b, 0xfe, 0xd7, 0xab, 0x76],
    [0xca, 0x82, 0xc9, 0x7d, 0xfa, 0x59, 0x47, 0xf0, 0xad, 0xd4, 0xa2, 0xaf, 0x9c, 0xa4, 0x72, 0xc0],
    [0xb7, 0xfd, 0x93, 0x26, 0x36, 0x3f, 0xf7, 0xcc, 0x34, 0xa5, 0xe5, 0xf1, 0x71, 0xd8, 0x31, 0x15],
    [0x04, 0xc7, 0x23, 0xc3, 0x18, 0x96, 0x05, 0x9a, 0x07, 0x12, 0x80, 0xe2, 0xeb, 0x27, 0xb2, 0x75],
    [0x09, 0x83, 0x2c, 0x1a, 0x1b, 0x6e, 0x5a, 0xa0, 0x52, 0x3b, 0xd6, 0xb3, 0x29, 0xe3, 0x2f, 0x84],
    [0x53, 0xd1, 0x00, 0xed, 0x20, 0xfc, 0xb1, 0x5b, 0x6a, 0xcb, 0xbe, 0x39, 0x4a, 0x4c, 0x58, 0xcf],
    [0xd0, 0xef, 0xaa, 0xfb, 0x43, 0x4d, 0x33, 0x85, 0x45, 0xf9, 0x02, 0x7f, 0x50, 0x3c, 0x9f, 0xa8],
    [0x51, 0xa3, 0x40, 0x8f, 0x92, 0x9d, 0x38, 0xf5, 0xbc, 0xb6, 0xda, 0x21, 0x10, 0xff, 0xf3, 0xd2],
    [0xcd, 0x0c, 0x13, 0xec, 0x5f, 0x97, 0x44, 0x17, 0xc4, 0xa7, 0x7e, 0x3d, 0x64, 0x5d, 0x19, 0x73],
    [0x60, 0x81, 0x4f, 0xdc, 0x22, 0x2a, 0x90, 0x88, 0x46, 0xee, 0xb8, 0x14, 0xde, 0x5e, 0x0b, 0xdb],
    [0xe0, 0x32, 0x3a, 0x0a, 0x49, 0x06, 0x24, 0x5c, 0xc2, 0xd3, 0xac, 0x62, 0x91, 0x95, 0xe4, 0x79],
    [0xe7, 0xc8, 0x37, 0x6d, 0x8d, 0xd5, 0x4e, 0xa9, 0x6c, 0x56, 0xf4, 0xea, 0x65, 0x7a, 0xae, 0x08],
    [0xba, 0x78, 0x25, 0x2e, 0x1c, 0xa6, 0xb4, 0xc6, 0xe8, 0xdd, 0x74, 0x1f, 0x4b, 0xbd, 0x8b, 0x8a],
    [0x70, 0x3e, 0xb5, 0x66, 0x48, 0x03, 0xf6, 0x0e, 0x61, 0x35, 0x57, 0xb9, 0x86, 0xc1, 0x1d, 0x9e],
    [0xe1, 0xf8, 0x98, 0x11, 0x69, 0xd9, 0x8e, 0x94, 0x9b, 0x1e, 0x87, 0xe9, 0xce, 0x55, 0x28, 0xdf],
    [0x8c, 0xa1, 0x89, 0x0d, 0xbf, 0xe6, 0x42, 0x68, 0x41, 0x99, 0x2d, 0x0f, 0xb0, 0x54, 0xbb, 0x16]]

  const INV_S_BOX: seq<seq<Byte>> := [
    [0x52, 0x09, 0x6a, 0xd5, 0x30, 0x36, 0xa5, 0x38, 0xbf, 0x40, 0xa3, 0x9e, 0x81, 0xf3, 0xd7, 0xfb],
    [0x7c, 0xe3, 0x39, 0x82, 0x9b, 0x2f, 0xff, 0x87, 0x34, 0x8e, 0x43, 0x44, 0xc4, 0xde, 0xe9, 0xcb],
    [0x54, 0x7b, 0x94, 0x32, 0xa6, 0xc2, 0x23, 0x3d, 0xee, 0x4c, 0x95, 0x0b, 0x42, 0xfa, 0xc3, 0x4e],
    [0x08, 0x2e, 0xa1, 0x66, 0x28, 0xd9, 0x24, 0xb2, 0x76, 0x5b, 0xa2, 0x49, 0x6d, 0x8b, 0xd1, 0x25],
    [0x72, 0xf8, 0xf6, 0x64, 0x86, 0x68, 0x98, 0x16, 0xd4, 0xa4, 0x5c, 0xcc, 0x5d, 0x65, 0xb6, 0x92],
    [0x6c, 0x70, 0x48, 0x50, 0xfd, 0xed, 0xb9, 0xda, 0x5e, 0x15, 0x46, 0x57, 0xa7, 0x8d, 0x9d, 0x84],
    [0x90, 0xd8, 0xab, 0x00, 0x8c, 0xbc, 0xd3, 0x0a, 0xf7, 0xe4, 0x58, 0x05, 0xb8, 0xb3, 0x45, 0x06],
    [0xd0, 0x2c, 0x1e, 0x8f, 0xca, 0x3f, 0x0f, 0x02, 0xc1, 0xaf, 0xbd, 0x03, 0x01, 0x13, 0x8a, 0x6b],
    [0x3a, 0x91, 0x11, 0x41, 0x4f, 0x67, 0xdc, 0xea, 0x97, 0xf2, 0xcf, 0xce, 0xf0, 0xb4, 0xe6, 0x73],
    [0x96, 0xac, 0x74, 0x22, 0xe7, 0xad, 0x35, 0x85, 0xe2, 0xf9, 0x37, 0xe8, 0x1c, 0x75, 0xdf, 0x6e],
    [0x47, 0xf1, 0x1a, 0x71, 0x1d, 0x29, 0xc5, 0x89, 0x6f, 0xb7, 0x62, 0x0e, 0xaa, 0x18, 0xbe, 0x1b],
    [0xfc, 0x56, 0x3e, 0x4b, 0xc6, 0xd2, 0x79, 0x20, 0x9a, 0xdb, 0xc0, 0xfe, 0x78, 0xcd, 0x5a, 0xf4],
    [0x1f, 0xdd, 0xa8, 0x33, 0x88, 0x07, 0xc7, 0x31, 0xb1, 0x12, 0x10, 0x59, 0x27, 0x80, 0xec, 0x5f],
    [0x60, 0x51, 0x7f, 0xa9, 0x19, 0xb5, 0x4a, 0x0d, 0x2d, 0xe5, 0x7a, 0x9f, 0x93, 0xc9, 0x9c, 0xef],
    [0xa0, 0xe0, 0x3b, 0x4d, 0xae, 0x2a, 0xf5, 0xb0, 0xc8, 0xeb, 0xbb, 0x3c, 0x83, 0x53, 0x99, 0x61],
    [0x17, 0x2b, 0x04, 0x7e, 0xba, 0x77, 0xd6, 0x26, 0xe1, 0x69, 0x14, 0x63, 0x55, 0x21, 0x0c, 0x7d]]

  lemma Shape(r: nat)
    requires r < 16
    ensures |S_BOX| == 16 && |S_BOX[r]| == 16 && |INV_S_BOX| == 16 && |INV_S_BOX[r]| == 16
  {}

  function Sub(k: Byte): Byte {
    Shape(k / 16);
    S_BOX[k / 16][k % 16]
  }

  function InvSub(k: Byte): Byte {
    Shape(k / 16);
    INV_S_BOX[k / 16][k % 16]
  }

  /** One table takes k to v and the other takes v back. */
  predicate Pair(k: Byte, v: Byte) {
    Sub(k) == v && InvSub(v) == k
  }

  lemma Row0(k: Byte) returns (v: Byte, u: Byte)
    requires 0 <= k < 16
    ensures Pair(k, v) && Pair(u, k)
  {
    if k == 0x00 { v, u := 0x63, 0x52; } else if k == 0x01 { v, u := 0x7c, 0x09; } else if k == 0x02 { v, u := 0x77, 0x6a; } else if k == 0x03 { v, u := 0x7b, 0xd5; }
    else if k == 0x04 { v, u := 0xf2, 0x30; } else if k == 0x05 { v, u := 0x6b, 0x36; } else if k == 0x06 { v, u := 0x6f, 0xa5; } else if k == 0x07 { v, u := 0xc5, 0x38; }
    else if k == 0x08 { v, u := 0x30, 0xbf; } else if k == 0x09 { v, u := 0x01, 0x40; } else if k == 0x0a { v, u := 0x67, 0xa3; } else if k == 0x0b { v, u := 0x2b, 0x9e; }
    else if k == 0x0c { v, u := 0xfe, 0x81; } else if k == 0x0d { v, u := 0xd7, 0xf3; } else if k == 0x0e { v, u := 0xab, 0xd7; } else { v, u := 0x76, 0xfb; }
  }

  lemma Row1(k: Byte) returns (v: Byte, u: Byte)
    requires 16 <= k < 32
    ensures Pair(k, v) && Pair(u, k)
  {
    if k == 0x10 { v, u := 0xca, 0x7c; } else if k == 0x11 { v, u := 0x82, 0xe3; } else if k == 0x12 { v, u := 0xc9, 0x39; } else if k == 0x13 { v, u := 0x7d, 0x82; }
    else if k == 0x14 { v, u := 0xfa, 0x9b; } else if k == 0x15 { v, u := 0x59, 0x2f; } else if k == 0x16 { v, u := 0x47, 0xff; } else if k == 0x17 { v, u := 0xf0, 0x87; }
    else if k == 0x18 { v, u := 0xad, 0x34; } else if k == 0x19 { v, u := 0xd4, 0x8e; } else if k == 0x1a { v, u := 0xa2, 0x43; } else if k == 0x1b { v, u := 0xaf, 0x44; }
    else if k == 0x1c { v, u := 0x9c, 0xc4; } else if k == 0x1d { v, u := 0xa4, 0xde; } else if k == 0x1e { v, u := 0x72, 0xe9; } else { v, u := 0xc0, 0xcb; }
  }

  lemma Row2(k: Byte) returns (v: Byte, u: Byte)
    requires 32 <= k < 48
    ensures Pair(k, v) && Pair(u, k)
  {
    if k == 0x20 { v, u := 0xb7, 0x54; } else if k == 0x21 { v, u := 0xfd, 0x7b; } else if k == 0x22 { v, u := 0x93, 0x94; } else if k == 0x23 { v, u := 0x26, 0x32; }
    else if k == 0x24 { v, u := 0x36, 0xa6; } else if k == 0x25 { v, u := 0x3f, 0xc2; } else if k == 0x26 { v, u := 0xf7, 0x23; } else if k == 0x27 { v, u := 0xcc, 0x3d; }
    else if k == 0x28 { v, u := 0x34, 0xee; } else if k == 0x29 { v, u := 0xa5, 0x4c; } else if k == 0x2a { v, u := 0xe5, 0x95; } else if k == 0x2b { v, u := 0xf1, 0x0b; }
    else if k == 0x2c { v, u := 0x71, 0x42; } else if k == 0x2d { v, u := 0xd8, 0xfa; } else if k == 0x2e { v, u := 0x31, 0xc3; } else { v, u := 0x15, 0x4e; }
  }

  lemma Row3(k: Byte) returns (v: Byte, u: Byte)
    requires 48 <= k < 64
    ensures Pair(k, v) && Pair(u, k)
  {
    if k == 0x30 { v, u := 0x04, 0x08; } else if k == 0x31 { v, u := 0xc7, 0x2e; } else if k == 0x32 { v, u := 0x23, 0xa1; } else if k == 0x33 { v, u := 0xc3, 0x66; }
    else if k == 0x34 { v, u := 0x18, 0x28; } else if k == 0x35 { v, u := 0x96, 0xd9; } else if k == 0x36 { v, u := 0x05, 0x24; } else if k == 0x37 { v, u := 0x9a, 0xb2; }
    else if k == 0x38 { v, u := 0x07, 0x76; } else if k == 0x39 { v, u := 0x12, 0x5b; } else if k == 0x3a { v, u := 0x80, 0xa2; } else if k == 0x3b { v, u := 0xe2, 0x49; }
    else if k == 0x3c { v, u := 0xeb, 0x6d; } else if k == 0x3d { v, u := 0x27, 0x8b; } else if k == 0x3e { v, u := 0xb2, 0xd1; } else { v, u := 0x75, 0x25; }
  }

  lemma Row4(k: Byte) returns (v: Byte, u: Byte)
    requires 64 <= k < 80
    ensures Pair(k, v) && Pair(u, k)
  {
    if k == 0x40 { v, u := 0x09, 0x72; } else if k == 0x41 { v, u := 0x83, 0xf8; } else if k == 0x42 { v, u := 0x2c, 0xf6; } else if k == 0x43 { v, u := 0x1a, 0x64; }
    else if k == 0x44 { v, u := 0x1b, 0x86; } else if k == 0x45 { v, u := 0x6e, 0x68; } else if k == 0x46 { v, u := 0x5a, 0x98; } else if k == 0x47 { v, u := 0xa0, 0x16; }
    else if k == 0x48 { v, u := 0x52, 0xd4; } else if k == 0x49 { v, u := 0x3b, 0xa4; } else if k == 0x4a { v, u := 0xd6, 0x5c; } else if k == 0x4b { v, u := 0xb3, 0xcc; }
    else if k == 0x4c { v, u := 0x29, 0x5d; } else if k == 0x4d { v, u := 0xe3, 0x65; } else if k == 0x4e { v, u := 0x2f, 0xb6; } else { v, u := 0x84, 0x92; }
  }

  lemma Row5(k: Byte) returns (v: Byte, u: Byte)
    requires 80 <= k < 96
    ensures Pair(k, v) && Pair(u, k)
  {
    if k == 0x50 { v, u := 0x53, 0x6c; } else if k == 0x51 { v, u := 0xd1, 0x70; } else if k == 0x52 { v, u := 0x00, 0x48; } else if k == 0x53 { v, u := 0xed, 0x50; }
    else if k == 0x54 { v, u := 0x20, 0xfd; } else if k == 0x55 { v, u := 0xfc, 0xed; } else if k == 0x56 { v, u := 0xb1, 0xb9; } else if k == 0x57 { v, u := 0x5b, 0xda; }
    else if k == 0x58 { v, u := 0x6a, 0x5e; } else if k == 0x59 { v, u := 0xcb, 0x15; } else if k == 0x5a { v, u := 0xbe, 0x46; } else if k == 0x5b { v, u := 0x39, 0x57; }
    else if k == 0x5c { v, u := 0x4a, 0xa7; } else if k == 0x5d { v, u := 0x4c, 0x8d; } else if k == 0x5e { v, u := 0x58, 0x9d; } else { v, u := 0xcf, 0x84; }
  }

  lemma Row6(k: Byte) returns (v: Byte, u: Byte)
    requires 96 <= k < 112
    ensures Pair(k, v) && Pair(u, k)
  {
    if k == 0x60 { v, u := 0xd0, 0x90; } else if k == 0x61 { v, u := 0xef, 0xd8; } else if k == 0x62 { v, u := 0xaa, 0xab; } else if k == 0x63 { v, u := 0xfb, 0x00; }
    else if k == 0x64 { v, u := 0x43, 0x8c; } else if k == 0x65 { v, u := 0x4d, 0xbc; } else if k == 0x66 { v, u := 0x33, 0xd3; } else if k == 0x67 { v, u := 0x85, 0x0a; }
    else if k == 0x68 { v, u := 0x45, 0xf7; } else if k == 0x69 { v, u := 0xf9, 0xe4; } else if k == 0x6a { v, u := 0x02, 0x58; } else if k == 0x6b { v, u := 0x7f, 0x05; }
    else if k == 0x6c { v, u := 0x50, 0xb8; } else if k == 0x6d { v, u := 0x3c, 0xb3; } else if k == 0x6e { v, u := 0x9f, 0x45; } else { v, u := 0xa8, 0x06; }
  }

  lemma Row7(k: Byte) returns (v: Byte, u: Byte)
    requires 112 <= k < 128
    ensures Pair(k, v) && Pair(u, k)
  {
    if k == 0x70 { v, u := 0x51, 0xd0; } else if k == 0x71 { v, u := 0xa3, 0x2c; } else if k == 0x72 { v, u := 0x40, 0x1e; } else if k == 0x73 { v, u := 0x8f, 0x8f; }
    else if k == 0x74 { v, u := 0x92, 0xca; } else if k == 0x75 { v, u := 0x9d, 0x3f; } else if k == 0x76 { v, u := 0x38, 0x0f; } else if k == 0x77 { v, u := 0xf5, 0x02; }
    else if k == 0x78 { v, u := 0xbc, 0xc1; } else if k == 0x79 { v, u := 0xb6, 0xaf; } else if k == 0x7a { v, u := 0xda, 0xbd; } else if k == 0x7b { v, u := 0x21, 0x03; }
    else if k == 0x7c { v, u := 0x10, 0x01; } else if k == 0x7d { v, u := 0xff, 0x13; } else if k == 0x7e { v, u := 0xf3, 0x8a; } else { v, u := 0xd2, 0x6b; }
  }

  lemma Row8(k: Byte) returns (v: Byte, u: Byte)
    requires 128 <= k < 144
    ensures Pair(k, v) && Pair(u, k)
  {
    if k == 0x80 { v, u := 0xcd, 0x3a; } else if k == 0x81 { v, u := 0x0c, 0x91; } else if k == 0x82 { v, u := 0x13, 0x11; } else if k == 0x83 { v, u := 0xec, 0x41; }
    else if k == 0x84 { v, u := 0x5f, 0x4f; } else if k == 0x85 { v, u := 0x97, 0x67; } else if k == 0x86 { v, u := 0x44, 0xdc; } else if k == 0x87 { v, u := 0x17, 0xea; }
    else if k == 0x88 { v, u := 0xc4, 0x97; } else if k == 0x89 { v, u := 0xa7, 0xf2; } else if k == 0x8a { v, u := 0x7e, 0xcf; } else if k == 0x8b { v, u := 0x3d, 0xce; }
    else if k == 0x8c { v, u := 0x64, 0xf0; } else if k == 0x8d { v, u := 0x5d, 0xb4; } else if k == 0x8e { v, u := 0x19, 0xe6; } else { v, u := 0x73, 0x73; }
  }

  lemma Row9(k: Byte) returns (v: Byte, u: Byte)
    requires 144 <= k < 160
    ensures Pair(k, v) && Pair(u, k)
  {
    if k == 0x90 { v, u := 0x60, 0x96; } else if k == 0x91 { v, u := 0x81, 0xac; } else if k == 0x92 { v, u := 0x4f, 0x74; } else if k == 0x93 { v, u := 0xdc, 0x22; }
    else if k == 0x94 { v, u := 0x22, 0xe7; } else if k == 0x95 { v, u := 0x2a, 0xad; } else if k == 0x96 { v, u := 0x90, 0x35; } else if k == 0x97 { v, u := 0x88, 0x85; }
    else if k == 0x98 { v, u := 0x46, 0xe2; } else if k == 0x99 { v, u := 0xee, 0xf9; } else if k == 0x9a { v, u := 0xb8, 0x37; } else if k == 0x9b { v, u := 0x14, 0xe8; }
    else if k == 0x9c { v, u := 0xde, 0x1c; } else if k == 0x9d { v, u := 0x5e, 0x75; } else if k == 0x9e { v, u := 0x0b, 0xdf; } else { v, u := 0xdb, 0x6e; }
  }

  lemma RowA(k: Byte) returns (v: Byte, u: Byte)
    requires 160 <= k < 176
    ensures Pair(k, v) && Pair(u, k)
  {
    if k == 0xa0 { v, u := 0xe0, 0x47; } else if k == 0xa1 { v, u := 0x32, 0xf1; } else if k == 0xa2 { v, u := 0x3a, 0x1a; } else if k == 0xa3 { v, u := 0x0a, 0x71; }
    else if k == 0xa4 { v, u := 0x49, 0x1d; } else if k == 0xa5 { v, u := 0x06, 0x29; } else if k == 0xa6 { v, u := 0x24, 0xc5; } else if k == 0xa7 { v, u := 0x5c, 0x89; }
    else if k == 0xa8 { v, u := 0xc2, 0x6f; } else if k == 0xa9 { v, u := 0xd3, 0xb7; } else if k == 0xaa { v, u := 0xac, 0x62; } else if k == 0xab { v, u := 0x62, 0x0e; }
    else if k == 0xac { v, u := 0x91, 0xaa; } else if k == 0xad { v, u := 0x95, 0x18; } else if k == 0xae { v, u := 0xe4, 0xbe; } else { v, u := 0x79, 0x1b; }
  }

  lemma RowB(k: Byte) returns (v: Byte, u: Byte)
    requires 176 <= k < 192
    ensures Pair(k, v) && Pair(u, k)
  {
    if k == 0xb0 { v, u := 0xe7, 0xfc; } else if k == 0xb1 { v, u := 0xc8, 0x56; } else if k == 0xb2 { v, u := 0x37, 0x3e; } else if k == 0xb3 { v, u := 0x6d, 0x4b; }
    else if k == 0xb4 { v, u := 0x8d, 0xc6; } else if k == 0xb5 { v, u := 0xd5, 0xd2; } else if k == 0xb6 { v, u := 0x4e, 0x79; } else if k == 0xb7 { v, u := 0xa9, 0x20; }
    else if k == 0xb8 { v, u := 0x6c, 0x9a; } else if k == 0xb9 { v, u := 0x56, 0xdb; } else if k == 0xba { v, u := 0xf4, 0xc0; } else if k == 0xbb { v, u := 0xea, 0xfe; }
    else if k == 0xbc { v, u := 0x65, 0x78; } else if k == 0xbd { v, u := 0x7a, 0xcd; } else if k == 0xbe { v, u := 0xae, 0x5a; } else { v, u := 0x08, 0xf4; }
  }

  lemma RowC(k: Byte) returns (v: Byte, u: Byte)
    requires 192 <= k < 208
    ensures Pair(k, v) && Pair(u, k)
  {
    if k == 0xc0 { v, u := 0xba, 0x1f; } else if k == 0xc1 { v, u := 0x78, 0xdd; } else if k == 0xc2 { v, u := 0x25, 0xa8; } else if k == 0xc3 { v, u := 0x2e, 0x33; }
    else if k == 0xc4 { v, u := 0x1c, 0x88; } else if k == 0xc5 { v, u := 0xa6, 0x07; } else if k == 0xc6 { v, u := 0xb4, 0xc7; } else if k == 0xc7 { v, u := 0xc6, 0x31; }
    else if k == 0xc8 { v, u := 0xe8, 0xb1; } else if k == 0xc9 { v, u := 0xdd, 0x12; } else if k == 0xca { v, u := 0x74, 0x10; } else if k == 0xcb { v, u := 0x1f, 0x59; }
    else if k == 0xcc { v, u := 0x4b, 0x27; } else if k == 0xcd { v, u := 0xbd, 0x80; } else if k == 0xce { v, u := 0x8b, 0xec; } else { v, u := 0x8a, 0x5f; }
  }

  lemma RowD(k: Byte) returns (v: Byte, u: Byte)
    requires 208 <= k < 224
    ensures Pair(k, v) && Pair(u, k)
  {
    if k == 0xd0 { v, u := 0x70, 0x60; } else if k == 0xd1 { v, u := 0x3e, 0x51; } else if k == 0xd2 { v, u := 0xb5, 0x7f; } else if k == 0xd3 { v, u := 0x66, 0xa9; }
    else if k == 0xd4 { v, u := 0x48, 0x19; } else if k == 0xd5 { v, u := 0x03, 0xb5; } else if k == 0xd6 { v, u := 0xf6, 0x4a; } else if k == 0xd7 { v, u := 0x0e, 0x0d; }
    else if k == 0xd8 { v, u := 0x61, 0x2d; } else if k == 0xd9 { v, u := 0x35, 0xe5; } else if k == 0xda { v, u := 0x57, 0x7a; } else if k == 0xdb { v, u := 0xb9, 0x9f; }
    else if k == 0xdc { v, u := 0x86, 0x93; } else if k == 0xdd { v, u := 0xc1, 0xc9; } else if k == 0xde { v, u := 0x1d, 0x9c; } else { v, u := 0x9e, 0xef; }
  }

  lemma RowE(k: Byte) returns (v: Byte, u: Byte)
    requires 224 <= k < 240
    ensures Pair(k, v) && Pair(u, k)
  {
    if k == 0xe0 { v, u := 0xe1, 0xa0; } else if k == 0xe1 { v, u := 0xf8, 0xe0; } else if k == 0xe2 { v, u := 0x98, 0x3b; } else if k == 0xe3 { v, u := 0x11, 0x4d; }
    else if k == 0xe4 { v, u := 0x69, 0xae; } else if k == 0xe5 { v, u := 0xd9, 0x2a; } else if k == 0xe6 { v, u := 0x8e, 0xf5; } else if k == 0xe7 { v, u := 0x94, 0xb0; }
    else if k == 0xe8 { v, u := 0x9b, 0xc8; } else if k == 0xe9 { v, u := 0x1e, 0xeb; } else if k == 0xea { v, u := 0x87, 0xbb; } else if k == 0xeb { v, u := 0xe9, 0x3c; }
    else if k == 0xec { v, u := 0xce, 0x83; } else if k == 0xed { v, u := 0x55, 0x53; } else if k == 0xee { v, u := 0x28, 0x99; } else { v, u := 0xdf, 0x61; }
  }

  lemma RowF(k: Byte) returns (v: Byte, u: Byte)
    requires 240 <= k < 256
    ensures Pair(k, v) && Pair(u, k)
  {
    if k == 0xf0 { v, u := 0x8c, 0x17; } else if k == 0xf1 { v, u := 0xa1, 0x2b; } else if k == 0xf2 { v, u := 0x89, 0x04; } else if k == 0xf3 { v, u := 0x0d, 0x7e; }
    else if k == 0xf4 { v, u := 0xbf, 0xba; } else if k == 0xf5 { v, u := 0xe6, 0x77; } else if k == 0xf6 { v, u := 0x42, 0xd6; } else if k == 0xf7 { v, u := 0x68, 0x26; }
    else if k == 0xf8 { v, u := 0x41, 0xe1; } else if k == 0xf9 { v, u := 0x99, 0x69; } else if k == 0xfa { v, u := 0x2d, 0x14; } else if k == 0xfb { v, u := 0x0f, 0x63; }
    else if k == 0xfc { v, u := 0xb0, 0x55; } else if k == 0xfd { v, u := 0x54, 0x21; } else if k == 0xfe { v, u := 0xbb, 0x0c; } else { v, u := 0x16, 0x7d; }
  }

  /** The tables are inverse permutations of the bytes. */
  lemma TablesInverse(k: Byte)
    ensures InvSub(Sub(k)) == k && Sub(InvSub(k)) == k
  {
    var v, u;
    if k < 16 { v, u := Row0(k); }
    else if k < 32 { v, u := Row1(k); }
    else if k < 48 { v, u := Row2(k); }
    else if k < 64 { v, u := Row3(k); }
    else if k < 80 { v, u := Row4(k); }
    else if k < 96 { v, u := Row5(k); }
    else if k < 112 { v, u := Row6(k); }
    else if k < 128 { v, u := Row7(k); }
    else if k < 144 { v, u := Row8(k); }
    else if k < 160 { v, u := Row9(k); }
    else if k < 176 { v, u := RowA(k); }
    else if k < 192 { v, u := RowB(k); }
    else if k < 208 { v, u := RowC(k); }
    else if k < 224 { v, u := RowD(k); }
    else if k < 240 { v, u := RowE(k); }
    else { v, u := RowF(k); }
  }
}
