/**
 * The SM4 tables by what they are: the S-box inverts in a field of 256 elements, and the key constants count in
 * sevens. None of the statements about all bytes or all words names an entry.
 */
module Sm4Tables {
  import opened Words
  import opened Sm4Spec

  // ----- the field and the affine map -----

  /** The product of two elements of the field, modulo X^8 + X^7 + X^6 + X^5 + X^4 + X^2 + 1. */
  function Times(x: bv8, y: bv8): bv8 {
    var x1 := (x << 1) ^ (if x & 0x80 == 0 then 0 else 0xF5);
    var x2 := (x1 << 1) ^ (if x1 & 0x80 == 0 then 0 else 0xF5);
    var x3 := (x2 << 1) ^ (if x2 & 0x80 == 0 then 0 else 0xF5);
    var x4 := (x3 << 1) ^ (if x3 & 0x80 == 0 then 0 else 0xF5);
    var x5 := (x4 << 1) ^ (if x4 & 0x80 == 0 then 0 else 0xF5);
    var x6 := (x5 << 1) ^ (if x5 & 0x80 == 0 then 0 else 0xF5);
    var x7 := (x6 << 1) ^ (if x6 & 0x80 == 0 then 0 else 0xF5);
    (if y & 1 == 0 then 0 else x) ^ (if y & 2 == 0 then 0 else x1)
    ^ (if y & 4 == 0 then 0 else x2) ^ (if y & 8 == 0 then 0 else x3)
    ^ (if y & 16 == 0 then 0 else x4) ^ (if y & 32 == 0 then 0 else x5)
    ^ (if y & 64 == 0 then 0 else x6) ^ (if y & 128 == 0 then 0 else x7)
  }

  function Parity(x: bv8): bv8 {
    (x ^ (x >> 1) ^ (x >> 2) ^ (x >> 3) ^ (x >> 4) ^ (x >> 5) ^ (x >> 6) ^ (x >> 7)) & 1
  }

  /** Bit i is the parity of the bits of `x` picked out by 0xA7 rotated by i; then 0xD3 is added. */
  function Affine(x: bv8): bv8 {
    ((Parity(x & 0xA7) << 0)
     | (Parity(x & 0x4F) << 1)
     | (Parity(x & 0x9E) << 2)
     | (Parity(x & 0x3D) << 3)
     | (Parity(x & 0x7A) << 4)
     | (Parity(x & 0xF4) << 5)
     | (Parity(x & 0xE9) << 6)
     | (Parity(x & 0xD3) << 7))
    ^ 0xD3
  }

  /** The same with 0x43, after 0xD3 is taken away: the way back. */
  function Unaffine(s: bv8): bv8 {
    var x := s ^ 0xD3;
    (Parity(x & 0x43) << 0)
    | (Parity(x & 0x86) << 1)
    | (Parity(x & 0x0D) << 2)
    | (Parity(x & 0x1A) << 3)
    | (Parity(x & 0x34) << 4)
    | (Parity(x & 0x68) << 5)
    | (Parity(x & 0xD0) << 6)
    | (Parity(x & 0xA1) << 7)
  }

  lemma AffineBack(s: bv8)
    ensures Affine(Unaffine(s)) == s && Unaffine(Affine(s)) == s
  {
  }

  ghost predicate Inverse(y: bv8, z: bv8) {
    if y == 0 then z == 0 else Times(y, z) == 1
  }

  ghost predicate Inverts(x: bv8) {
    Inverse(Affine(x), Unaffine(Sbox(x)))
  }

  // ----- the S-box, row by row -----

  lemma SboxAt(x: bv8, i: nat, j: nat)
    requires i < 16 && j < 16 && x as int == 16 * i + j
    ensures |SBOX| == 16 && |SBOX[i]| == 16 && Sbox(x) == SBOX[i][j]
  {
    TableSizes();
    hide SBOX;
  }

  lemma Row0()
    ensures Sbox(0x00) == 0xd6 && Sbox(0x01) == 0x90 && Sbox(0x02) == 0xe9 && Sbox(0x03) == 0xfe
         && Sbox(0x04) == 0xcc && Sbox(0x05) == 0xe1 && Sbox(0x06) == 0x3d && Sbox(0x07) == 0xb7
         && Sbox(0x08) == 0x16 && Sbox(0x09) == 0xb6 && Sbox(0x0a) == 0x14 && Sbox(0x0b) == 0xc2
         && Sbox(0x0c) == 0x28 && Sbox(0x0d) == 0xfb && Sbox(0x0e) == 0x2c && Sbox(0x0f) == 0x05
  {
    hide Sbox;
    SboxAt(0x00, 0, 0); SboxAt(0x01, 0, 1); SboxAt(0x02, 0, 2); SboxAt(0x03, 0, 3);
    SboxAt(0x04, 0, 4); SboxAt(0x05, 0, 5); SboxAt(0x06, 0, 6); SboxAt(0x07, 0, 7);
    SboxAt(0x08, 0, 8); SboxAt(0x09, 0, 9); SboxAt(0x0a, 0, 10); SboxAt(0x0b, 0, 11);
    SboxAt(0x0c, 0, 12); SboxAt(0x0d, 0, 13); SboxAt(0x0e, 0, 14); SboxAt(0x0f, 0, 15);
  }

  lemma Algebra0()
    ensures Inverts(0x00) && Inverts(0x01) && Inverts(0x02) && Inverts(0x03)
         && Inverts(0x04) && Inverts(0x05) && Inverts(0x06) && Inverts(0x07)
         && Inverts(0x08) && Inverts(0x09) && Inverts(0x0a) && Inverts(0x0b)
         && Inverts(0x0c) && Inverts(0x0d) && Inverts(0x0e) && Inverts(0x0f)
  {
    hide Sbox;
    Row0();
    assert Affine(0x00) == 0xd3 && Unaffine(0xd6) == 0x93 && Times(0xd3, 0x93) == 1;
    assert Affine(0x01) == 0x18 && Unaffine(0x90) == 0xef && Times(0x18, 0xef) == 1;
    assert Affine(0x02) == 0x44 && Unaffine(0xe9) == 0xcf && Times(0x44, 0xcf) == 1;
    assert Affine(0x03) == 0x8f && Unaffine(0xfe) == 0x0f && Times(0x8f, 0x0f) == 1;
    assert Affine(0x04) == 0xfc && Unaffine(0xcc) == 0xec && Times(0xfc, 0xec) == 1;
    assert Affine(0x05) == 0x37 && Unaffine(0xe1) == 0xe3 && Times(0x37, 0xe3) == 1;
    assert Affine(0x06) == 0x6b && Unaffine(0x3d) == 0x22 && Times(0x6b, 0x22) == 1;
    assert Affine(0x07) == 0xa0 && Unaffine(0xb7) == 0xc7 && Times(0xa0, 0xc7) == 1;
    assert Affine(0x08) == 0x8d && Unaffine(0x16) == 0x30 && Times(0x8d, 0x30) == 1;
    assert Affine(0x09) == 0x46 && Unaffine(0xb6) == 0x42 && Times(0x46, 0x42) == 1;
    assert Affine(0x0a) == 0x1a && Unaffine(0x14) == 0x3b && Times(0x1a, 0x3b) == 1;
    assert Affine(0x0b) == 0xd1 && Unaffine(0xc2) == 0xdd && Times(0xd1, 0xdd) == 1;
    assert Affine(0x0c) == 0xa2 && Unaffine(0x28) == 0xe9 && Times(0xa2, 0xe9) == 1;
    assert Affine(0x0d) == 0x69 && Unaffine(0xfb) == 0x9c && Times(0x69, 0x9c) == 1;
    assert Affine(0x0e) == 0x35 && Unaffine(0x2c) == 0xff && Times(0x35, 0xff) == 1;
    assert Affine(0x0f) == 0xfe && Unaffine(0x05) == 0xe6 && Times(0xfe, 0xe6) == 1;
  }

  lemma Row1()
    ensures Sbox(0x10) == 0x2b && Sbox(0x11) == 0x67 && Sbox(0x12) == 0x9a && Sbox(0x13) == 0x76
         && Sbox(0x14) == 0x2a && Sbox(0x15) == 0xbe && Sbox(0x16) == 0x04 && Sbox(0x17) == 0xc3
         && Sbox(0x18) == 0xaa && Sbox(0x19) == 0x44 && Sbox(0x1a) == 0x13 && Sbox(0x1b) == 0x26
         && Sbox(0x1c) == 0x49 && Sbox(0x1d) == 0x86 && Sbox(0x1e) == 0x06 && Sbox(0x1f) == 0x99
  {
    hide Sbox;
    SboxAt(0x10, 1, 0); SboxAt(0x11, 1, 1); SboxAt(0x12, 1, 2); SboxAt(0x13, 1, 3);
    SboxAt(0x14, 1, 4); SboxAt(0x15, 1, 5); SboxAt(0x16, 1, 6); SboxAt(0x17, 1, 7);
    SboxAt(0x18, 1, 8); SboxAt(0x19, 1, 9); SboxAt(0x1a, 1, 10); SboxAt(0x1b, 1, 11);
    SboxAt(0x1c, 1, 12); SboxAt(0x1d, 1, 13); SboxAt(0x1e, 1, 14); SboxAt(0x1f, 1, 15);
  }

  lemma Algebra1()
    ensures Inverts(0x10) && Inverts(0x11) && Inverts(0x12) && Inverts(0x13)
         && Inverts(0x14) && Inverts(0x15) && Inverts(0x16) && Inverts(0x17)
         && Inverts(0x18) && Inverts(0x19) && Inverts(0x1a) && Inverts(0x1b)
         && Inverts(0x1c) && Inverts(0x1d) && Inverts(0x1e) && Inverts(0x1f)
  {
    hide Sbox;
    Row1();
    assert Affine(0x10) == 0x6f && Unaffine(0x2b) == 0x67 && Times(0x6f, 0x67) == 1;
    assert Affine(0x11) == 0xa4 && Unaffine(0x67) == 0x3c && Times(0xa4, 0x3c) == 1;
    assert Affine(0x12) == 0xf8 && Unaffine(0x9a) == 0xc8 && Times(0xf8, 0xc8) == 1;
    assert Affine(0x13) == 0x33 && Unaffine(0x76) == 0xe1 && Times(0x33, 0xe1) == 1;
    assert Affine(0x14) == 0x40 && Unaffine(0x2a) == 0xe2 && Times(0x40, 0xe2) == 1;
    assert Affine(0x15) == 0x8b && Unaffine(0xbe) == 0x6e && Times(0x8b, 0x6e) == 1;
    assert Affine(0x16) == 0xd7 && Unaffine(0x04) == 0x63 && Times(0xd7, 0x63) == 1;
    assert Affine(0x17) == 0x1c && Unaffine(0xc3) == 0x58 && Times(0x1c, 0x58) == 1;
    assert Affine(0x18) == 0x31 && Unaffine(0xaa) == 0x20 && Times(0x31, 0x20) == 1;
    assert Affine(0x19) == 0xfa && Unaffine(0x44) == 0x02 && Times(0xfa, 0x02) == 1;
    assert Affine(0x1a) == 0xa6 && Unaffine(0x13) == 0xa3 && Times(0xa6, 0xa3) == 1;
    assert Affine(0x1b) == 0x6d && Unaffine(0x26) == 0xd8 && Times(0x6d, 0xd8) == 1;
    assert Affine(0x1c) == 0x1e && Unaffine(0x49) == 0xbd && Times(0x1e, 0xbd) == 1;
    assert Affine(0x1d) == 0xd5 && Unaffine(0x86) == 0xaa && Times(0xd5, 0xaa) == 1;
    assert Affine(0x1e) == 0x89 && Unaffine(0x06) == 0x68 && Times(0x89, 0x68) == 1;
    assert Affine(0x1f) == 0x42 && Unaffine(0x99) == 0x46 && Times(0x42, 0x46) == 1;
  }

  lemma Row2()
    ensures Sbox(0x20) == 0x9c && Sbox(0x21) == 0x42 && Sbox(0x22) == 0x50 && Sbox(0x23) == 0xf4
         && Sbox(0x24) == 0x91 && Sbox(0x25) == 0xef && Sbox(0x26) == 0x98 && Sbox(0x27) == 0x7a
         && Sbox(0x28) == 0x33 && Sbox(0x29) == 0x54 && Sbox(0x2a) == 0x0b && Sbox(0x2b) == 0x43
         && Sbox(0x2c) == 0xed && Sbox(0x2d) == 0xcf && Sbox(0x2e) == 0xac && Sbox(0x2f) == 0x62
  {
    hide Sbox;
    SboxAt(0x20, 2, 0); SboxAt(0x21, 2, 1); SboxAt(0x22, 2, 2); SboxAt(0x23, 2, 3);
    SboxAt(0x24, 2, 4); SboxAt(0x25, 2, 5); SboxAt(0x26, 2, 6); SboxAt(0x27, 2, 7);
    SboxAt(0x28, 2, 8); SboxAt(0x29, 2, 9); SboxAt(0x2a, 2, 10); SboxAt(0x2b, 2, 11);
    SboxAt(0x2c, 2, 12); SboxAt(0x2d, 2, 13); SboxAt(0x2e, 2, 14); SboxAt(0x2f, 2, 15);
  }

  lemma Algebra2()
    ensures Inverts(0x20) && Inverts(0x21) && Inverts(0x22) && Inverts(0x23)
         && Inverts(0x24) && Inverts(0x25) && Inverts(0x26) && Inverts(0x27)
         && Inverts(0x28) && Inverts(0x29) && Inverts(0x2a) && Inverts(0x2b)
         && Inverts(0x2c) && Inverts(0x2d) && Inverts(0x2e) && Inverts(0x2f)
  {
    hide Sbox;
    Row2();
    assert Affine(0x20) == 0xaa && Unaffine(0x9c) == 0xd5 && Times(0xaa, 0xd5) == 1;
    assert Affine(0x21) == 0x61 && Unaffine(0x42) == 0x1f && Times(0x61, 0x1f) == 1;
    assert Affine(0x22) == 0x3d && Unaffine(0x50) == 0x4c && Times(0x3d, 0x4c) == 1;
    assert Affine(0x23) == 0xf6 && Unaffine(0xf4) == 0x28 && Times(0xf6, 0x28) == 1;
    assert Affine(0x24) == 0x85 && Unaffine(0x91) == 0x6a && Times(0x85, 0x6a) == 1;
    assert Affine(0x25) == 0x4e && Unaffine(0xef) == 0xd2 && Times(0x4e, 0xd2) == 1;
    assert Affine(0x26) == 0x12 && Unaffine(0x98) == 0xc3 && Times(0x12, 0xc3) == 1;
    assert Affine(0x27) == 0xd9 && Unaffine(0x7a) == 0xdb && Times(0xd9, 0xdb) == 1;
    assert Affine(0x28) == 0xf4 && Unaffine(0x33) == 0x13 && Times(0xf4, 0x13) == 1;
    assert Affine(0x29) == 0x3f && Unaffine(0x54) == 0x5a && Times(0x3f, 0x5a) == 1;
    assert Affine(0x2a) == 0x63 && Unaffine(0x0b) == 0xd7 && Times(0x63, 0xd7) == 1;
    assert Affine(0x2b) == 0xa8 && Unaffine(0x43) == 0x9a && Times(0xa8, 0x9a) == 1;
    assert Affine(0x2c) == 0xdb && Unaffine(0xed) == 0xd9 && Times(0xdb, 0xd9) == 1;
    assert Affine(0x2d) == 0x10 && Unaffine(0xcf) == 0x62 && Times(0x10, 0x62) == 1;
    assert Affine(0x2e) == 0x4c && Unaffine(0xac) == 0x3d && Times(0x4c, 0x3d) == 1;
    assert Affine(0x2f) == 0x87 && Unaffine(0x62) == 0xaf && Times(0x87, 0xaf) == 1;
  }

  lemma Row3()
    ensures Sbox(0x30) == 0xe4 && Sbox(0x31) == 0xb3 && Sbox(0x32) == 0x1c && Sbox(0x33) == 0xa9
         && Sbox(0x34) == 0xc9 && Sbox(0x35) == 0x08 && Sbox(0x36) == 0xe8 && Sbox(0x37) == 0x95
         && Sbox(0x38) == 0x80 && Sbox(0x39) == 0xdf && Sbox(0x3a) == 0x94 && Sbox(0x3b) == 0xfa
         && Sbox(0x3c) == 0x75 && Sbox(0x3d) == 0x8f && Sbox(0x3e) == 0x3f && Sbox(0x3f) == 0xa6
  {
    hide Sbox;
    SboxAt(0x30, 3, 0); SboxAt(0x31, 3, 1); SboxAt(0x32, 3, 2); SboxAt(0x33, 3, 3);
    SboxAt(0x34, 3, 4); SboxAt(0x35, 3, 5); SboxAt(0x36, 3, 6); SboxAt(0x37, 3, 7);
    SboxAt(0x38, 3, 8); SboxAt(0x39, 3, 9); SboxAt(0x3a, 3, 10); SboxAt(0x3b, 3, 11);
    SboxAt(0x3c, 3, 12); SboxAt(0x3d, 3, 13); SboxAt(0x3e, 3, 14); SboxAt(0x3f, 3, 15);
  }

  lemma Algebra3()
    ensures Inverts(0x30) && Inverts(0x31) && Inverts(0x32) && Inverts(0x33)
         && Inverts(0x34) && Inverts(0x35) && Inverts(0x36) && Inverts(0x37)
         && Inverts(0x38) && Inverts(0x39) && Inverts(0x3a) && Inverts(0x3b)
         && Inverts(0x3c) && Inverts(0x3d) && Inverts(0x3e) && Inverts(0x3f)
  {
    hide Sbox;
    Row3();
    assert Affine(0x30) == 0x16 && Unaffine(0xe4) == 0x70 && Times(0x16, 0x70) == 1;
    assert Affine(0x31) == 0xdd && Unaffine(0xb3) == 0xd1 && Times(0xdd, 0xd1) == 1;
    assert Affine(0x32) == 0x81 && Unaffine(0x1c) == 0x17 && Times(0x81, 0x17) == 1;
    assert Affine(0x33) == 0x4a && Unaffine(0xa9) == 0xae && Times(0x4a, 0xae) == 1;
    assert Affine(0x34) == 0x39 && Unaffine(0xc9) == 0x7f && Times(0x39, 0x7f) == 1;
    assert Affine(0x35) == 0xf2 && Unaffine(0x08) == 0x59 && Times(0xf2, 0x59) == 1;
    assert Affine(0x36) == 0xae && Unaffine(0xe8) == 0x4a && Times(0xae, 0x4a) == 1;
    assert Affine(0x37) == 0x65 && Unaffine(0x95) == 0x7c && Times(0x65, 0x7c) == 1;
    assert Affine(0x38) == 0x48 && Unaffine(0x80) == 0xb7 && Times(0x48, 0xb7) == 1;
    assert Affine(0x39) == 0x83 && Unaffine(0xdf) == 0x3a && Times(0x83, 0x3a) == 1;
    assert Affine(0x3a) == 0xdf && Unaffine(0x94) == 0xf9 && Times(0xdf, 0xf9) == 1;
    assert Affine(0x3b) == 0x14 && Unaffine(0xfa) == 0x19 && Times(0x14, 0x19) == 1;
    assert Affine(0x3c) == 0x67 && Unaffine(0x75) == 0x6f && Times(0x67, 0x6f) == 1;
    assert Affine(0x3d) == 0xac && Unaffine(0x8f) == 0x03 && Times(0xac, 0x03) == 1;
    assert Affine(0x3e) == 0xf0 && Unaffine(0x3f) == 0x29 && Times(0xf0, 0x29) == 1;
    assert Affine(0x3f) == 0x3b && Unaffine(0xa6) == 0x1a && Times(0x3b, 0x1a) == 1;
  }

  lemma Row4()
    ensures Sbox(0x40) == 0x47 && Sbox(0x41) == 0x07 && Sbox(0x42) == 0xa7 && Sbox(0x43) == 0xfc
         && Sbox(0x44) == 0xf3 && Sbox(0x45) == 0x73 && Sbox(0x46) == 0x17 && Sbox(0x47) == 0xba
         && Sbox(0x48) == 0x83 && Sbox(0x49) == 0x59 && Sbox(0x4a) == 0x3c && Sbox(0x4b) == 0x19
         && Sbox(0x4c) == 0xe6 && Sbox(0x4d) == 0x85 && Sbox(0x4e) == 0x4f && Sbox(0x4f) == 0xa8
  {
    hide Sbox;
    SboxAt(0x40, 4, 0); SboxAt(0x41, 4, 1); SboxAt(0x42, 4, 2); SboxAt(0x43, 4, 3);
    SboxAt(0x44, 4, 4); SboxAt(0x45, 4, 5); SboxAt(0x46, 4, 6); SboxAt(0x47, 4, 7);
    SboxAt(0x48, 4, 8); SboxAt(0x49, 4, 9); SboxAt(0x4a, 4, 10); SboxAt(0x4b, 4, 11);
    SboxAt(0x4c, 4, 12); SboxAt(0x4d, 4, 13); SboxAt(0x4e, 4, 14); SboxAt(0x4f, 4, 15);
  }

  lemma Algebra4()
    ensures Inverts(0x40) && Inverts(0x41) && Inverts(0x42) && Inverts(0x43)
         && Inverts(0x44) && Inverts(0x45) && Inverts(0x46) && Inverts(0x47)
         && Inverts(0x48) && Inverts(0x49) && Inverts(0x4a) && Inverts(0x4b)
         && Inverts(0x4c) && Inverts(0x4d) && Inverts(0x4e) && Inverts(0x4f)
  {
    hide Sbox;
    Row4();
    assert Affine(0x40) == 0x21 && Unaffine(0x47) == 0x8c && Times(0x21, 0x8c) == 1;
    assert Affine(0x41) == 0xea && Unaffine(0x07) == 0xed && Times(0xea, 0xed) == 1;
    assert Affine(0x42) == 0xb6 && Unaffine(0xa7) == 0x9f && Times(0xb6, 0x9f) == 1;
    assert Affine(0x43) == 0x7d && Unaffine(0xfc) == 0x04 && Times(0x7d, 0x04) == 1;
    assert Affine(0x44) == 0x0e && Unaffine(0xf3) == 0xb0 && Times(0x0e, 0xb0) == 1;
    assert Affine(0x45) == 0xc5 && Unaffine(0x73) == 0x72 && Times(0xc5, 0x72) == 1;
    assert Affine(0x46) == 0x99 && Unaffine(0x17) == 0xb5 && Times(0x99, 0xb5) == 1;
    assert Affine(0x47) == 0x52 && Unaffine(0xba) == 0x78 && Times(0x52, 0x78) == 1;
    assert Affine(0x48) == 0x7f && Unaffine(0x83) == 0x39 && Times(0x7f, 0x39) == 1;
    assert Affine(0x49) == 0xb4 && Unaffine(0x59) == 0xe5 && Times(0xb4, 0xe5) == 1;
    assert Affine(0x4a) == 0xe8 && Unaffine(0x3c) == 0xa7 && Times(0xe8, 0xa7) == 1;
    assert Affine(0x4b) == 0x23 && Unaffine(0x19) == 0x84 && Times(0x23, 0x84) == 1;
    assert Affine(0x4c) == 0x50 && Unaffine(0xe6) == 0x7b && Times(0x50, 0x7b) == 1;
    assert Affine(0x4d) == 0x9b && Unaffine(0x85) == 0x24 && Times(0x9b, 0x24) == 1;
    assert Affine(0x4e) == 0xc7 && Unaffine(0x4f) == 0xa0 && Times(0xc7, 0xa0) == 1;
    assert Affine(0x4f) == 0x0c && Unaffine(0xa8) == 0x2b && Times(0x0c, 0x2b) == 1;
  }

  lemma Row5()
    ensures Sbox(0x50) == 0x68 && Sbox(0x51) == 0x6b && Sbox(0x52) == 0x81 && Sbox(0x53) == 0xb2
         && Sbox(0x54) == 0x71 && Sbox(0x55) == 0x64 && Sbox(0x56) == 0xda && Sbox(0x57) == 0x8b
         && Sbox(0x58) == 0xf8 && Sbox(0x59) == 0xeb && Sbox(0x5a) == 0x0f && Sbox(0x5b) == 0x4b
         && Sbox(0x5c) == 0x70 && Sbox(0x5d) == 0x56 && Sbox(0x5e) == 0x9d && Sbox(0x5f) == 0x35
  {
    hide Sbox;
    SboxAt(0x50, 5, 0); SboxAt(0x51, 5, 1); SboxAt(0x52, 5, 2); SboxAt(0x53, 5, 3);
    SboxAt(0x54, 5, 4); SboxAt(0x55, 5, 5); SboxAt(0x56, 5, 6); SboxAt(0x57, 5, 7);
    SboxAt(0x58, 5, 8); SboxAt(0x59, 5, 9); SboxAt(0x5a, 5, 10); SboxAt(0x5b, 5, 11);
    SboxAt(0x5c, 5, 12); SboxAt(0x5d, 5, 13); SboxAt(0x5e, 5, 14); SboxAt(0x5f, 5, 15);
  }

  lemma Algebra5()
    ensures Inverts(0x50) && Inverts(0x51) && Inverts(0x52) && Inverts(0x53)
         && Inverts(0x54) && Inverts(0x55) && Inverts(0x56) && Inverts(0x57)
         && Inverts(0x58) && Inverts(0x59) && Inverts(0x5a) && Inverts(0x5b)
         && Inverts(0x5c) && Inverts(0x5d) && Inverts(0x5e) && Inverts(0x5f)
  {
    hide Sbox;
    Row5();
    assert Affine(0x50) == 0x9d && Unaffine(0x68) == 0x88 && Times(0x9d, 0x88) == 1;
    assert Affine(0x51) == 0x56 && Unaffine(0x6b) == 0x06 && Times(0x56, 0x06) == 1;
    assert Affine(0x52) == 0x0a && Unaffine(0x81) == 0x32 && Times(0x0a, 0x32) == 1;
    assert Affine(0x53) == 0xc1 && Unaffine(0xb2) == 0x54 && Times(0xc1, 0x54) == 1;
    assert Affine(0x54) == 0xb2 && Unaffine(0x71) == 0x79 && Times(0xb2, 0x79) == 1;
    assert Affine(0x55) == 0x79 && Unaffine(0x64) == 0xb2 && Times(0x79, 0xb2) == 1;
    assert Affine(0x56) == 0x25 && Unaffine(0xda) == 0xa9 && Times(0x25, 0xa9) == 1;
    assert Affine(0x57) == 0xee && Unaffine(0x8b) == 0x15 && Times(0xee, 0x15) == 1;
    assert Affine(0x58) == 0xc3 && Unaffine(0xf8) == 0x12 && Times(0xc3, 0x12) == 1;
    assert Affine(0x59) == 0x08 && Unaffine(0xeb) == 0xc4 && Times(0x08, 0xc4) == 1;
    assert Affine(0x5a) == 0x54 && Unaffine(0x0f) == 0xc1 && Times(0x54, 0xc1) == 1;
    assert Affine(0x5b) == 0x9f && Unaffine(0x4b) == 0xb6 && Times(0x9f, 0xb6) == 1;
    assert Affine(0x5c) == 0xec && Unaffine(0x70) == 0xfc && Times(0xec, 0xfc) == 1;
    assert Affine(0x5d) == 0x27 && Unaffine(0x56) == 0x51 && Times(0x27, 0x51) == 1;
    assert Affine(0x5e) == 0x7b && Unaffine(0x9d) == 0x50 && Times(0x7b, 0x50) == 1;
    assert Affine(0x5f) == 0xb0 && Unaffine(0x35) == 0x0e && Times(0xb0, 0x0e) == 1;
  }

  lemma Row6()
    ensures Sbox(0x60) == 0x1e && Sbox(0x61) == 0x24 && Sbox(0x62) == 0x0e && Sbox(0x63) == 0x5e
         && Sbox(0x64) == 0x63 && Sbox(0x65) == 0x58 && Sbox(0x66) == 0xd1 && Sbox(0x67) == 0xa2
         && Sbox(0x68) == 0x25 && Sbox(0x69) == 0x22 && Sbox(0x6a) == 0x7c && Sbox(0x6b) == 0x3b
         && Sbox(0x6c) == 0x01 && Sbox(0x6d) == 0x21 && Sbox(0x6e) == 0x78 && Sbox(0x6f) == 0x87
  {
    hide Sbox;
    SboxAt(0x60, 6, 0); SboxAt(0x61, 6, 1); SboxAt(0x62, 6, 2); SboxAt(0x63, 6, 3);
    SboxAt(0x64, 6, 4); SboxAt(0x65, 6, 5); SboxAt(0x66, 6, 6); SboxAt(0x67, 6, 7);
    SboxAt(0x68, 6, 8); SboxAt(0x69, 6, 9); SboxAt(0x6a, 6, 10); SboxAt(0x6b, 6, 11);
    SboxAt(0x6c, 6, 12); SboxAt(0x6d, 6, 13); SboxAt(0x6e, 6, 14); SboxAt(0x6f, 6, 15);
  }

  lemma Algebra6()
    ensures Inverts(0x60) && Inverts(0x61) && Inverts(0x62) && Inverts(0x63)
         && Inverts(0x64) && Inverts(0x65) && Inverts(0x66) && Inverts(0x67)
         && Inverts(0x68) && Inverts(0x69) && Inverts(0x6a) && Inverts(0x6b)
         && Inverts(0x6c) && Inverts(0x6d) && Inverts(0x6e) && Inverts(0x6f)
  {
    hide Sbox;
    Row6();
    assert Affine(0x60) == 0x58 && Unaffine(0x1e) == 0x1c && Times(0x58, 0x1c) == 1;
    assert Affine(0x61) == 0x93 && Unaffine(0x24) == 0xd3 && Times(0x93, 0xd3) == 1;
    assert Affine(0x62) == 0xcf && Unaffine(0x0e) == 0x44 && Times(0xcf, 0x44) == 1;
    assert Affine(0x63) == 0x04 && Unaffine(0x5e) == 0x7d && Times(0x04, 0x7d) == 1;
    assert Affine(0x64) == 0x77 && Unaffine(0x63) == 0x2a && Times(0x77, 0x2a) == 1;
    assert Affine(0x65) == 0xbc && Unaffine(0x58) == 0x60 && Times(0xbc, 0x60) == 1;
    assert Affine(0x66) == 0xe0 && Unaffine(0xd1) == 0x0b && Times(0xe0, 0x0b) == 1;
    assert Affine(0x67) == 0x2b && Unaffine(0xa2) == 0x0c && Times(0x2b, 0x0c) == 1;
    assert Affine(0x68) == 0x06 && Unaffine(0x25) == 0x56 && Times(0x06, 0x56) == 1;
    assert Affine(0x69) == 0xcd && Unaffine(0x22) == 0xce && Times(0xcd, 0xce) == 1;
    assert Affine(0x6a) == 0x91 && Unaffine(0x7c) == 0xc6 && Times(0x91, 0xc6) == 1;
    assert Affine(0x6b) == 0x5a && Unaffine(0x3b) == 0x3f && Times(0x5a, 0x3f) == 1;
    assert Affine(0x6c) == 0x29 && Unaffine(0x01) == 0xf0 && Times(0x29, 0xf0) == 1;
    assert Affine(0x6d) == 0xe2 && Unaffine(0x21) == 0x40 && Times(0xe2, 0x40) == 1;
    assert Affine(0x6e) == 0xbe && Unaffine(0x78) == 0xd0 && Times(0xbe, 0xd0) == 1;
    assert Affine(0x6f) == 0x75 && Unaffine(0x87) == 0x2f && Times(0x75, 0x2f) == 1;
  }

  lemma Row7()
    ensures Sbox(0x70) == 0xd4 && Sbox(0x71) == 0x00 && Sbox(0x72) == 0x46 && Sbox(0x73) == 0x57
         && Sbox(0x74) == 0x9f && Sbox(0x75) == 0xd3 && Sbox(0x76) == 0x27 && Sbox(0x77) == 0x52
         && Sbox(0x78) == 0x4c && Sbox(0x79) == 0x36 && Sbox(0x7a) == 0x02 && Sbox(0x7b) == 0xe7
         && Sbox(0x7c) == 0xa0 && Sbox(0x7d) == 0xc4 && Sbox(0x7e) == 0xc8 && Sbox(0x7f) == 0x9e
  {
    hide Sbox;
    SboxAt(0x70, 7, 0); SboxAt(0x71, 7, 1); SboxAt(0x72, 7, 2); SboxAt(0x73, 7, 3);
    SboxAt(0x74, 7, 4); SboxAt(0x75, 7, 5); SboxAt(0x76, 7, 6); SboxAt(0x77, 7, 7);
    SboxAt(0x78, 7, 8); SboxAt(0x79, 7, 9); SboxAt(0x7a, 7, 10); SboxAt(0x7b, 7, 11);
    SboxAt(0x7c, 7, 12); SboxAt(0x7d, 7, 13); SboxAt(0x7e, 7, 14); SboxAt(0x7f, 7, 15);
  }

  lemma Algebra7()
    ensures Inverts(0x70) && Inverts(0x71) && Inverts(0x72) && Inverts(0x73)
         && Inverts(0x74) && Inverts(0x75) && Inverts(0x76) && Inverts(0x77)
         && Inverts(0x78) && Inverts(0x79) && Inverts(0x7a) && Inverts(0x7b)
         && Inverts(0x7c) && Inverts(0x7d) && Inverts(0x7e) && Inverts(0x7f)
  {
    hide Sbox;
    Row7();
    assert Affine(0x70) == 0xe4 && Unaffine(0xd4) == 0x98 && Times(0xe4, 0x98) == 1;
    assert Affine(0x71) == 0x2f && Unaffine(0x00) == 0x75 && Times(0x2f, 0x75) == 1;
    assert Affine(0x72) == 0x73 && Unaffine(0x46) == 0x09 && Times(0x73, 0x09) == 1;
    assert Affine(0x73) == 0xb8 && Unaffine(0x57) == 0xd4 && Times(0xb8, 0xd4) == 1;
    assert Affine(0x74) == 0xcb && Unaffine(0x9f) == 0x5b && Times(0xcb, 0x5b) == 1;
    assert Affine(0x75) == 0x00 && Unaffine(0xd3) == 0x00 && Times(0x00, 0x00) == 0;
    assert Affine(0x76) == 0x5c && Unaffine(0x27) == 0x5d && Times(0x5c, 0x5d) == 1;
    assert Affine(0x77) == 0x97 && Unaffine(0x52) == 0x47 && Times(0x97, 0x47) == 1;
    assert Affine(0x78) == 0xba && Unaffine(0x4c) == 0x2e && Times(0xba, 0x2e) == 1;
    assert Affine(0x79) == 0x71 && Unaffine(0x36) == 0x80 && Times(0x71, 0x80) == 1;
    assert Affine(0x7a) == 0x2d && Unaffine(0x02) == 0x7e && Times(0x2d, 0x7e) == 1;
    assert Affine(0x7b) == 0xe6 && Unaffine(0xe7) == 0xfe && Times(0xe6, 0xfe) == 1;
    assert Affine(0x7c) == 0x95 && Unaffine(0xa0) == 0x07 && Times(0x95, 0x07) == 1;
    assert Affine(0x7d) == 0x5e && Unaffine(0xc4) == 0xc0 && Times(0x5e, 0xc0) == 1;
    assert Affine(0x7e) == 0x02 && Unaffine(0xc8) == 0xfa && Times(0x02, 0xfa) == 1;
    assert Affine(0x7f) == 0xc9 && Unaffine(0x9e) == 0xde && Times(0xc9, 0xde) == 1;
  }

  lemma Row8()
    ensures Sbox(0x80) == 0xea && Sbox(0x81) == 0xbf && Sbox(0x82) == 0x8a && Sbox(0x83) == 0xd2
         && Sbox(0x84) == 0x40 && Sbox(0x85) == 0xc7 && Sbox(0x86) == 0x38 && Sbox(0x87) == 0xb5
         && Sbox(0x88) == 0xa3 && Sbox(0x89) == 0xf7 && Sbox(0x8a) == 0xf2 && Sbox(0x8b) == 0xce
         && Sbox(0x8c) == 0xf9 && Sbox(0x8d) == 0x61 && Sbox(0x8e) == 0x15 && Sbox(0x8f) == 0xa1
  {
    hide Sbox;
    SboxAt(0x80, 8, 0); SboxAt(0x81, 8, 1); SboxAt(0x82, 8, 2); SboxAt(0x83, 8, 3);
    SboxAt(0x84, 8, 4); SboxAt(0x85, 8, 5); SboxAt(0x86, 8, 6); SboxAt(0x87, 8, 7);
    SboxAt(0x88, 8, 8); SboxAt(0x89, 8, 9); SboxAt(0x8a, 8, 10); SboxAt(0x8b, 8, 11);
    SboxAt(0x8c, 8, 12); SboxAt(0x8d, 8, 13); SboxAt(0x8e, 8, 14); SboxAt(0x8f, 8, 15);
  }

  lemma Algebra8()
    ensures Inverts(0x80) && Inverts(0x81) && Inverts(0x82) && Inverts(0x83)
         && Inverts(0x84) && Inverts(0x85) && Inverts(0x86) && Inverts(0x87)
         && Inverts(0x88) && Inverts(0x89) && Inverts(0x8a) && Inverts(0x8b)
         && Inverts(0x8c) && Inverts(0x8d) && Inverts(0x8e) && Inverts(0x8f)
  {
    hide Sbox;
    Row8();
    assert Affine(0x80) == 0x36 && Unaffine(0xea) == 0x41 && Times(0x36, 0x41) == 1;
    assert Affine(0x81) == 0xfd && Unaffine(0xbf) == 0xeb && Times(0xfd, 0xeb) == 1;
    assert Affine(0x82) == 0xa1 && Unaffine(0x8a) == 0x90 && Times(0xa1, 0x90) == 1;
    assert Affine(0x83) == 0x6a && Unaffine(0xd2) == 0x85 && Times(0x6a, 0x85) == 1;
    assert Affine(0x84) == 0x19 && Unaffine(0x40) == 0x14 && Times(0x19, 0x14) == 1;
    assert Affine(0x85) == 0xd2 && Unaffine(0xc7) == 0x4e && Times(0xd2, 0x4e) == 1;
    assert Affine(0x86) == 0x8e && Unaffine(0x38) == 0xb1 && Times(0x8e, 0xb1) == 1;
    assert Affine(0x87) == 0x45 && Unaffine(0xb5) == 0xcc && Times(0x45, 0xcc) == 1;
    assert Affine(0x88) == 0x68 && Unaffine(0xa3) == 0x89 && Times(0x68, 0x89) == 1;
    assert Affine(0x89) == 0xa3 && Unaffine(0xf7) == 0xa6 && Times(0xa3, 0xa6) == 1;
    assert Affine(0x8a) == 0xff && Unaffine(0xf2) == 0x35 && Times(0xff, 0x35) == 1;
    assert Affine(0x8b) == 0x34 && Unaffine(0xce) == 0xe7 && Times(0x34, 0xe7) == 1;
    assert Affine(0x8c) == 0x47 && Unaffine(0xf9) == 0x97 && Times(0x47, 0x97) == 1;
    assert Affine(0x8d) == 0x8c && Unaffine(0x61) == 0x21 && Times(0x8c, 0x21) == 1;
    assert Affine(0x8e) == 0xd0 && Unaffine(0x15) == 0xbe && Times(0xd0, 0xbe) == 1;
    assert Affine(0x8f) == 0x1b && Unaffine(0xa1) == 0x82 && Times(0x1b, 0x82) == 1;
  }

  lemma Row9()
    ensures Sbox(0x90) == 0xe0 && Sbox(0x91) == 0xae && Sbox(0x92) == 0x5d && Sbox(0x93) == 0xa4
         && Sbox(0x94) == 0x9b && Sbox(0x95) == 0x34 && Sbox(0x96) == 0x1a && Sbox(0x97) == 0x55
         && Sbox(0x98) == 0xad && Sbox(0x99) == 0x93 && Sbox(0x9a) == 0x32 && Sbox(0x9b) == 0x30
         && Sbox(0x9c) == 0xf5 && Sbox(0x9d) == 0x8c && Sbox(0x9e) == 0xb1 && Sbox(0x9f) == 0xe3
  {
    hide Sbox;
    SboxAt(0x90, 9, 0); SboxAt(0x91, 9, 1); SboxAt(0x92, 9, 2); SboxAt(0x93, 9, 3);
    SboxAt(0x94, 9, 4); SboxAt(0x95, 9, 5); SboxAt(0x96, 9, 6); SboxAt(0x97, 9, 7);
    SboxAt(0x98, 9, 8); SboxAt(0x99, 9, 9); SboxAt(0x9a, 9, 10); SboxAt(0x9b, 9, 11);
    SboxAt(0x9c, 9, 12); SboxAt(0x9d, 9, 13); SboxAt(0x9e, 9, 14); SboxAt(0x9f, 9, 15);
  }

  lemma Algebra9()
    ensures Inverts(0x90) && Inverts(0x91) && Inverts(0x92) && Inverts(0x93)
         && Inverts(0x94) && Inverts(0x95) && Inverts(0x96) && Inverts(0x97)
         && Inverts(0x98) && Inverts(0x99) && Inverts(0x9a) && Inverts(0x9b)
         && Inverts(0x9c) && Inverts(0x9d) && Inverts(0x9e) && Inverts(0x9f)
  {
    hide Sbox;
    Row9();
    assert Affine(0x90) == 0x8a && Unaffine(0xe0) == 0x66 && Times(0x8a, 0x66) == 1;
    assert Affine(0x91) == 0x41 && Unaffine(0xae) == 0x36 && Times(0x41, 0x36) == 1;
    assert Affine(0x92) == 0x1d && Unaffine(0x5d) == 0xf3 && Times(0x1d, 0xf3) == 1;
    assert Affine(0x93) == 0xd6 && Unaffine(0xa4) == 0x11 && Times(0xd6, 0x11) == 1;
    assert Affine(0x94) == 0xa5 && Unaffine(0x9b) == 0x4d && Times(0xa5, 0x4d) == 1;
    assert Affine(0x95) == 0x6e && Unaffine(0x34) == 0x8b && Times(0x6e, 0x8b) == 1;
    assert Affine(0x96) == 0x32 && Unaffine(0x1a) == 0x0a && Times(0x32, 0x0a) == 1;
    assert Affine(0x97) == 0xf9 && Unaffine(0x55) == 0xdf && Times(0xf9, 0xdf) == 1;
    assert Affine(0x98) == 0xd4 && Unaffine(0xad) == 0xb8 && Times(0xd4, 0xb8) == 1;
    assert Affine(0x99) == 0x1f && Unaffine(0x93) == 0x61 && Times(0x1f, 0x61) == 1;
    assert Affine(0x9a) == 0x43 && Unaffine(0x32) == 0x96 && Times(0x43, 0x96) == 1;
    assert Affine(0x9b) == 0x88 && Unaffine(0x30) == 0x9d && Times(0x88, 0x9d) == 1;
    assert Affine(0x9c) == 0xfb && Unaffine(0xf5) == 0xad && Times(0xfb, 0xad) == 1;
    assert Affine(0x9d) == 0x30 && Unaffine(0x8c) == 0x8d && Times(0x30, 0x8d) == 1;
    assert Affine(0x9e) == 0x6c && Unaffine(0xb1) == 0xda && Times(0x6c, 0xda) == 1;
    assert Affine(0x9f) == 0xa7 && Unaffine(0xe3) == 0xe8 && Times(0xa7, 0xe8) == 1;
  }

  lemma Row10()
    ensures Sbox(0xa0) == 0x1d && Sbox(0xa1) == 0xf6 && Sbox(0xa2) == 0xe2 && Sbox(0xa3) == 0x2e
         && Sbox(0xa4) == 0x82 && Sbox(0xa5) == 0x66 && Sbox(0xa6) == 0xca && Sbox(0xa7) == 0x60
         && Sbox(0xa8) == 0xc0 && Sbox(0xa9) == 0x29 && Sbox(0xaa) == 0x23 && Sbox(0xab) == 0xab
         && Sbox(0xac) == 0x0d && Sbox(0xad) == 0x53 && Sbox(0xae) == 0x4e && Sbox(0xaf) == 0x6f
  {
    hide Sbox;
    SboxAt(0xa0, 10, 0); SboxAt(0xa1, 10, 1); SboxAt(0xa2, 10, 2); SboxAt(0xa3, 10, 3);
    SboxAt(0xa4, 10, 4); SboxAt(0xa5, 10, 5); SboxAt(0xa6, 10, 6); SboxAt(0xa7, 10, 7);
    SboxAt(0xa8, 10, 8); SboxAt(0xa9, 10, 9); SboxAt(0xaa, 10, 10); SboxAt(0xab, 10, 11);
    SboxAt(0xac, 10, 12); SboxAt(0xad, 10, 13); SboxAt(0xae, 10, 14); SboxAt(0xaf, 10, 15);
  }

  lemma Algebra10()
    ensures Inverts(0xa0) && Inverts(0xa1) && Inverts(0xa2) && Inverts(0xa3)
         && Inverts(0xa4) && Inverts(0xa5) && Inverts(0xa6) && Inverts(0xa7)
         && Inverts(0xa8) && Inverts(0xa9) && Inverts(0xaa) && Inverts(0xab)
         && Inverts(0xac) && Inverts(0xad) && Inverts(0xae) && Inverts(0xaf)
  {
    hide Sbox;
    Row10();
    assert Affine(0xa0) == 0x4f && Unaffine(0x1d) == 0x92 && Times(0x4f, 0x92) == 1;
    assert Affine(0xa1) == 0x84 && Unaffine(0xf6) == 0x23 && Times(0x84, 0x23) == 1;
    assert Affine(0xa2) == 0xd8 && Unaffine(0xe2) == 0x6d && Times(0xd8, 0x6d) == 1;
    assert Affine(0xa3) == 0x13 && Unaffine(0x2e) == 0xf4 && Times(0x13, 0xf4) == 1;
    assert Affine(0xa4) == 0x60 && Unaffine(0x82) == 0xbc && Times(0x60, 0xbc) == 1;
    assert Affine(0xa5) == 0xab && Unaffine(0x66) == 0xb9 && Times(0xab, 0xb9) == 1;
    assert Affine(0xa6) == 0xf7 && Unaffine(0xca) == 0xf1 && Times(0xf7, 0xf1) == 1;
    assert Affine(0xa7) == 0x3c && Unaffine(0x60) == 0xa4 && Times(0x3c, 0xa4) == 1;
    assert Affine(0xa8) == 0x11 && Unaffine(0xc0) == 0xd6 && Times(0x11, 0xd6) == 1;
    assert Affine(0xa9) == 0xda && Unaffine(0x29) == 0x6c && Times(0xda, 0x6c) == 1;
    assert Affine(0xaa) == 0x86 && Unaffine(0x23) == 0x4b && Times(0x86, 0x4b) == 1;
    assert Affine(0xab) == 0x4d && Unaffine(0xab) == 0xa5 && Times(0x4d, 0xa5) == 1;
    assert Affine(0xac) == 0x3e && Unaffine(0x0d) == 0xca && Times(0x3e, 0xca) == 1;
    assert Affine(0xad) == 0xf5 && Unaffine(0x53) == 0xc2 && Times(0xf5, 0xc2) == 1;
    assert Affine(0xae) == 0xa9 && Unaffine(0x4e) == 0x25 && Times(0xa9, 0x25) == 1;
    assert Affine(0xaf) == 0x62 && Unaffine(0x6f) == 0x10 && Times(0x62, 0x10) == 1;
  }

  lemma Row11()
    ensures Sbox(0xb0) == 0xd5 && Sbox(0xb1) == 0xdb && Sbox(0xb2) == 0x37 && Sbox(0xb3) == 0x45
         && Sbox(0xb4) == 0xde && Sbox(0xb5) == 0xfd && Sbox(0xb6) == 0x8e && Sbox(0xb7) == 0x2f
         && Sbox(0xb8) == 0x03 && Sbox(0xb9) == 0xff && Sbox(0xba) == 0x6a && Sbox(0xbb) == 0x72
         && Sbox(0xbc) == 0x6d && Sbox(0xbd) == 0x6c && Sbox(0xbe) == 0x5b && Sbox(0xbf) == 0x51
  {
    hide Sbox;
    SboxAt(0xb0, 11, 0); SboxAt(0xb1, 11, 1); SboxAt(0xb2, 11, 2); SboxAt(0xb3, 11, 3);
    SboxAt(0xb4, 11, 4); SboxAt(0xb5, 11, 5); SboxAt(0xb6, 11, 6); SboxAt(0xb7, 11, 7);
    SboxAt(0xb8, 11, 8); SboxAt(0xb9, 11, 9); SboxAt(0xba, 11, 10); SboxAt(0xbb, 11, 11);
    SboxAt(0xbc, 11, 12); SboxAt(0xbd, 11, 13); SboxAt(0xbe, 11, 14); SboxAt(0xbf, 11, 15);
  }

  lemma Algebra11()
    ensures Inverts(0xb0) && Inverts(0xb1) && Inverts(0xb2) && Inverts(0xb3)
         && Inverts(0xb4) && Inverts(0xb5) && Inverts(0xb6) && Inverts(0xb7)
         && Inverts(0xb8) && Inverts(0xb9) && Inverts(0xba) && Inverts(0xbb)
         && Inverts(0xbc) && Inverts(0xbd) && Inverts(0xbe) && Inverts(0xbf)
  {
    hide Sbox;
    Row11();
    assert Affine(0xb0) == 0xf3 && Unaffine(0xd5) == 0x1d && Times(0xf3, 0x1d) == 1;
    assert Affine(0xb1) == 0x38 && Unaffine(0xdb) == 0x2c && Times(0x38, 0x2c) == 1;
    assert Affine(0xb2) == 0x64 && Unaffine(0x37) == 0x05 && Times(0x64, 0x05) == 1;
    assert Affine(0xb3) == 0xaf && Unaffine(0x45) == 0x87 && Times(0xaf, 0x87) == 1;
    assert Affine(0xb4) == 0xdc && Unaffine(0xde) == 0xbf && Times(0xdc, 0xbf) == 1;
    assert Affine(0xb5) == 0x17 && Unaffine(0xfd) == 0x81 && Times(0x17, 0x81) == 1;
    assert Affine(0xb6) == 0x4b && Unaffine(0x8e) == 0x86 && Times(0x4b, 0x86) == 1;
    assert Affine(0xb7) == 0x80 && Unaffine(0x2f) == 0x71 && Times(0x80, 0x71) == 1;
    assert Affine(0xb8) == 0xad && Unaffine(0x03) == 0xfb && Times(0xad, 0xfb) == 1;
    assert Affine(0xb9) == 0x66 && Unaffine(0xff) == 0x8a && Times(0x66, 0x8a) == 1;
    assert Affine(0xba) == 0x3a && Unaffine(0x6a) == 0x83 && Times(0x3a, 0x83) == 1;
    assert Affine(0xbb) == 0xf1 && Unaffine(0x72) == 0xf7 && Times(0xf1, 0xf7) == 1;
    assert Affine(0xbc) == 0x82 && Unaffine(0x6d) == 0x1b && Times(0x82, 0x1b) == 1;
    assert Affine(0xbd) == 0x49 && Unaffine(0x6c) == 0x9e && Times(0x49, 0x9e) == 1;
    assert Affine(0xbe) == 0x15 && Unaffine(0x5b) == 0xee && Times(0x15, 0xee) == 1;
    assert Affine(0xbf) == 0xde && Unaffine(0x51) == 0xc9 && Times(0xde, 0xc9) == 1;
  }

  lemma Row12()
    ensures Sbox(0xc0) == 0x8d && Sbox(0xc1) == 0x1b && Sbox(0xc2) == 0xaf && Sbox(0xc3) == 0x92
         && Sbox(0xc4) == 0xbb && Sbox(0xc5) == 0xdd && Sbox(0xc6) == 0xbc && Sbox(0xc7) == 0x7f
         && Sbox(0xc8) == 0x11 && Sbox(0xc9) == 0xd9 && Sbox(0xca) == 0x5c && Sbox(0xcb) == 0x41
         && Sbox(0xcc) == 0x1f && Sbox(0xcd) == 0x10 && Sbox(0xce) == 0x5a && Sbox(0xcf) == 0xd8
  {
    hide Sbox;
    SboxAt(0xc0, 12, 0); SboxAt(0xc1, 12, 1); SboxAt(0xc2, 12, 2); SboxAt(0xc3, 12, 3);
    SboxAt(0xc4, 12, 4); SboxAt(0xc5, 12, 5); SboxAt(0xc6, 12, 6); SboxAt(0xc7, 12, 7);
    SboxAt(0xc8, 12, 8); SboxAt(0xc9, 12, 9); SboxAt(0xca, 12, 10); SboxAt(0xcb, 12, 11);
    SboxAt(0xcc, 12, 12); SboxAt(0xcd, 12, 13); SboxAt(0xce, 12, 14); SboxAt(0xcf, 12, 15);
  }

  lemma Algebra12()
    ensures Inverts(0xc0) && Inverts(0xc1) && Inverts(0xc2) && Inverts(0xc3)
         && Inverts(0xc4) && Inverts(0xc5) && Inverts(0xc6) && Inverts(0xc7)
         && Inverts(0xc8) && Inverts(0xc9) && Inverts(0xca) && Inverts(0xcb)
         && Inverts(0xcc) && Inverts(0xcd) && Inverts(0xce) && Inverts(0xcf)
  {
    hide Sbox;
    Row12();
    assert Affine(0xc0) == 0xc4 && Unaffine(0x8d) == 0x08 && Times(0xc4, 0x08) == 1;
    assert Affine(0xc1) == 0x0f && Unaffine(0x1b) == 0x8f && Times(0x0f, 0x8f) == 1;
    assert Affine(0xc2) == 0x53 && Unaffine(0xaf) == 0xb3 && Times(0x53, 0xb3) == 1;
    assert Affine(0xc3) == 0x98 && Unaffine(0x92) == 0xe4 && Times(0x98, 0xe4) == 1;
    assert Affine(0xc4) == 0xeb && Unaffine(0xbb) == 0xfd && Times(0xeb, 0xfd) == 1;
    assert Affine(0xc5) == 0x20 && Unaffine(0xdd) == 0x31 && Times(0x20, 0x31) == 1;
    assert Affine(0xc6) == 0x7c && Unaffine(0xbc) == 0x65 && Times(0x7c, 0x65) == 1;
    assert Affine(0xc7) == 0xb7 && Unaffine(0x7f) == 0x48 && Times(0xb7, 0x48) == 1;
    assert Affine(0xc8) == 0x9a && Unaffine(0x11) == 0xa8 && Times(0x9a, 0xa8) == 1;
    assert Affine(0xc9) == 0x51 && Unaffine(0xd9) == 0x27 && Times(0x51, 0x27) == 1;
    assert Affine(0xca) == 0x0d && Unaffine(0x5c) == 0x76 && Times(0x0d, 0x76) == 1;
    assert Affine(0xcb) == 0xc6 && Unaffine(0x41) == 0x91 && Times(0xc6, 0x91) == 1;
    assert Affine(0xcc) == 0xb5 && Unaffine(0x1f) == 0x99 && Times(0xb5, 0x99) == 1;
    assert Affine(0xcd) == 0x7e && Unaffine(0x10) == 0x2d && Times(0x7e, 0x2d) == 1;
    assert Affine(0xce) == 0x22 && Unaffine(0x5a) == 0x6b && Times(0x22, 0x6b) == 1;
    assert Affine(0xcf) == 0xe9 && Unaffine(0xd8) == 0xa2 && Times(0xe9, 0xa2) == 1;
  }

  lemma Row13()
    ensures Sbox(0xd0) == 0x0a && Sbox(0xd1) == 0xc1 && Sbox(0xd2) == 0x31 && Sbox(0xd3) == 0x88
         && Sbox(0xd4) == 0xa5 && Sbox(0xd5) == 0xcd && Sbox(0xd6) == 0x7b && Sbox(0xd7) == 0xbd
         && Sbox(0xd8) == 0x2d && Sbox(0xd9) == 0x74 && Sbox(0xda) == 0xd0 && Sbox(0xdb) == 0x12
         && Sbox(0xdc) == 0xb8 && Sbox(0xdd) == 0xe5 && Sbox(0xde) == 0xb4 && Sbox(0xdf) == 0xb0
  {
    hide Sbox;
    SboxAt(0xd0, 13, 0); SboxAt(0xd1, 13, 1); SboxAt(0xd2, 13, 2); SboxAt(0xd3, 13, 3);
    SboxAt(0xd4, 13, 4); SboxAt(0xd5, 13, 5); SboxAt(0xd6, 13, 6); SboxAt(0xd7, 13, 7);
    SboxAt(0xd8, 13, 8); SboxAt(0xd9, 13, 9); SboxAt(0xda, 13, 10); SboxAt(0xdb, 13, 11);
    SboxAt(0xdc, 13, 12); SboxAt(0xdd, 13, 13); SboxAt(0xde, 13, 14); SboxAt(0xdf, 13, 15);
  }

  lemma Algebra13()
    ensures Inverts(0xd0) && Inverts(0xd1) && Inverts(0xd2) && Inverts(0xd3)
         && Inverts(0xd4) && Inverts(0xd5) && Inverts(0xd6) && Inverts(0xd7)
         && Inverts(0xd8) && Inverts(0xd9) && Inverts(0xda) && Inverts(0xdb)
         && Inverts(0xdc) && Inverts(0xdd) && Inverts(0xde) && Inverts(0xdf)
  {
    hide Sbox;
    Row13();
    assert Affine(0xd0) == 0x78 && Unaffine(0x0a) == 0x52 && Times(0x78, 0x52) == 1;
    assert Affine(0xd1) == 0xb3 && Unaffine(0xc1) == 0x53 && Times(0xb3, 0x53) == 1;
    assert Affine(0xd2) == 0xef && Unaffine(0x31) == 0x18 && Times(0xef, 0x18) == 1;
    assert Affine(0xd3) == 0x24 && Unaffine(0x88) == 0x9b && Times(0x24, 0x9b) == 1;
    assert Affine(0xd4) == 0x57 && Unaffine(0xa5) == 0x94 && Times(0x57, 0x94) == 1;
    assert Affine(0xd5) == 0x9c && Unaffine(0xcd) == 0x69 && Times(0x9c, 0x69) == 1;
    assert Affine(0xd6) == 0xc0 && Unaffine(0x7b) == 0x5e && Times(0xc0, 0x5e) == 1;
    assert Affine(0xd7) == 0x0b && Unaffine(0xbd) == 0xe0 && Times(0x0b, 0xe0) == 1;
    assert Affine(0xd8) == 0x26 && Unaffine(0x2d) == 0x7a && Times(0x26, 0x7a) == 1;
    assert Affine(0xd9) == 0xed && Unaffine(0x74) == 0xea && Times(0xed, 0xea) == 1;
    assert Affine(0xda) == 0xb1 && Unaffine(0xd0) == 0x8e && Times(0xb1, 0x8e) == 1;
    assert Affine(0xdb) == 0x7a && Unaffine(0x12) == 0x26 && Times(0x7a, 0x26) == 1;
    assert Affine(0xdc) == 0x09 && Unaffine(0xb8) == 0x73 && Times(0x09, 0x73) == 1;
    assert Affine(0xdd) == 0xc2 && Unaffine(0xe5) == 0xf5 && Times(0xc2, 0xf5) == 1;
    assert Affine(0xde) == 0x9e && Unaffine(0xb4) == 0x49 && Times(0x9e, 0x49) == 1;
    assert Affine(0xdf) == 0x55 && Unaffine(0xb0) == 0x5f && Times(0x55, 0x5f) == 1;
  }

  lemma Row14()
    ensures Sbox(0xe0) == 0x89 && Sbox(0xe1) == 0x69 && Sbox(0xe2) == 0x97 && Sbox(0xe3) == 0x4a
         && Sbox(0xe4) == 0x0c && Sbox(0xe5) == 0x96 && Sbox(0xe6) == 0x77 && Sbox(0xe7) == 0x7e
         && Sbox(0xe8) == 0x65 && Sbox(0xe9) == 0xb9 && Sbox(0xea) == 0xf1 && Sbox(0xeb) == 0x09
         && Sbox(0xec) == 0xc5 && Sbox(0xed) == 0x6e && Sbox(0xee) == 0xc6 && Sbox(0xef) == 0x84
  {
    hide Sbox;
    SboxAt(0xe0, 14, 0); SboxAt(0xe1, 14, 1); SboxAt(0xe2, 14, 2); SboxAt(0xe3, 14, 3);
    SboxAt(0xe4, 14, 4); SboxAt(0xe5, 14, 5); SboxAt(0xe6, 14, 6); SboxAt(0xe7, 14, 7);
    SboxAt(0xe8, 14, 8); SboxAt(0xe9, 14, 9); SboxAt(0xea, 14, 10); SboxAt(0xeb, 14, 11);
    SboxAt(0xec, 14, 12); SboxAt(0xed, 14, 13); SboxAt(0xee, 14, 14); SboxAt(0xef, 14, 15);
  }

  lemma Algebra14()
    ensures Inverts(0xe0) && Inverts(0xe1) && Inverts(0xe2) && Inverts(0xe3)
         && Inverts(0xe4) && Inverts(0xe5) && Inverts(0xe6) && Inverts(0xe7)
         && Inverts(0xe8) && Inverts(0xe9) && Inverts(0xea) && Inverts(0xeb)
         && Inverts(0xec) && Inverts(0xed) && Inverts(0xee) && Inverts(0xef)
  {
    hide Sbox;
    Row14();
    assert Affine(0xe0) == 0xbd && Unaffine(0x89) == 0x1e && Times(0xbd, 0x1e) == 1;
    assert Affine(0xe1) == 0x76 && Unaffine(0x69) == 0x0d && Times(0x76, 0x0d) == 1;
    assert Affine(0xe2) == 0x2a && Unaffine(0x97) == 0x77 && Times(0x2a, 0x77) == 1;
    assert Affine(0xe3) == 0xe1 && Unaffine(0x4a) == 0x33 && Times(0xe1, 0x33) == 1;
    assert Affine(0xe4) == 0x92 && Unaffine(0x0c) == 0x4f && Times(0x92, 0x4f) == 1;
    assert Affine(0xe5) == 0x59 && Unaffine(0x96) == 0xf2 && Times(0x59, 0xf2) == 1;
    assert Affine(0xe6) == 0x05 && Unaffine(0x77) == 0x64 && Times(0x05, 0x64) == 1;
    assert Affine(0xe7) == 0xce && Unaffine(0x7e) == 0xcd && Times(0xce, 0xcd) == 1;
    assert Affine(0xe8) == 0xe3 && Unaffine(0x65) == 0x37 && Times(0xe3, 0x37) == 1;
    assert Affine(0xe9) == 0x28 && Unaffine(0xb9) == 0xf6 && Times(0x28, 0xf6) == 1;
    assert Affine(0xea) == 0x74 && Unaffine(0xf1) == 0xbb && Times(0x74, 0xbb) == 1;
    assert Affine(0xeb) == 0xbf && Unaffine(0x09) == 0xdc && Times(0xbf, 0xdc) == 1;
    assert Affine(0xec) == 0xcc && Unaffine(0xc5) == 0x45 && Times(0xcc, 0x45) == 1;
    assert Affine(0xed) == 0x07 && Unaffine(0x6e) == 0x95 && Times(0x07, 0x95) == 1;
    assert Affine(0xee) == 0x5b && Unaffine(0xc6) == 0xcb && Times(0x5b, 0xcb) == 1;
    assert Affine(0xef) == 0x90 && Unaffine(0x84) == 0xa1 && Times(0x90, 0xa1) == 1;
  }

  lemma Row15()
    ensures Sbox(0xf0) == 0x18 && Sbox(0xf1) == 0xf0 && Sbox(0xf2) == 0x7d && Sbox(0xf3) == 0xec
         && Sbox(0xf4) == 0x3a && Sbox(0xf5) == 0xdc && Sbox(0xf6) == 0x4d && Sbox(0xf7) == 0x20
         && Sbox(0xf8) == 0x79 && Sbox(0xf9) == 0xee && Sbox(0xfa) == 0x5f && Sbox(0xfb) == 0x3e
         && Sbox(0xfc) == 0xd7 && Sbox(0xfd) == 0xcb && Sbox(0xfe) == 0x39 && Sbox(0xff) == 0x48
  {
    hide Sbox;
    SboxAt(0xf0, 15, 0); SboxAt(0xf1, 15, 1); SboxAt(0xf2, 15, 2); SboxAt(0xf3, 15, 3);
    SboxAt(0xf4, 15, 4); SboxAt(0xf5, 15, 5); SboxAt(0xf6, 15, 6); SboxAt(0xf7, 15, 7);
    SboxAt(0xf8, 15, 8); SboxAt(0xf9, 15, 9); SboxAt(0xfa, 15, 10); SboxAt(0xfb, 15, 11);
    SboxAt(0xfc, 15, 12); SboxAt(0xfd, 15, 13); SboxAt(0xfe, 15, 14); SboxAt(0xff, 15, 15);
  }

  lemma Algebra15()
    ensures Inverts(0xf0) && Inverts(0xf1) && Inverts(0xf2) && Inverts(0xf3)
         && Inverts(0xf4) && Inverts(0xf5) && Inverts(0xf6) && Inverts(0xf7)
         && Inverts(0xf8) && Inverts(0xf9) && Inverts(0xfa) && Inverts(0xfb)
         && Inverts(0xfc) && Inverts(0xfd) && Inverts(0xfe) && Inverts(0xff)
  {
    hide Sbox;
    Row15();
    assert Affine(0xf0) == 0x01 && Unaffine(0x18) == 0x01 && Times(0x01, 0x01) == 1;
    assert Affine(0xf1) == 0xca && Unaffine(0xf0) == 0x3e && Times(0xca, 0x3e) == 1;
    assert Affine(0xf2) == 0x96 && Unaffine(0x7d) == 0x43 && Times(0x96, 0x43) == 1;
    assert Affine(0xf3) == 0x5d && Unaffine(0xec) == 0x5c && Times(0x5d, 0x5c) == 1;
    assert Affine(0xf4) == 0x2e && Unaffine(0x3a) == 0xba && Times(0x2e, 0xba) == 1;
    assert Affine(0xf5) == 0xe5 && Unaffine(0xdc) == 0xb4 && Times(0xe5, 0xb4) == 1;
    assert Affine(0xf6) == 0xb9 && Unaffine(0x4d) == 0xab && Times(0xb9, 0xab) == 1;
    assert Affine(0xf7) == 0x72 && Unaffine(0x20) == 0xc5 && Times(0x72, 0xc5) == 1;
    assert Affine(0xf8) == 0x5f && Unaffine(0x79) == 0x55 && Times(0x5f, 0x55) == 1;
    assert Affine(0xf9) == 0x94 && Unaffine(0xee) == 0x57 && Times(0x94, 0x57) == 1;
    assert Affine(0xfa) == 0xc8 && Unaffine(0x5f) == 0xf8 && Times(0xc8, 0xf8) == 1;
    assert Affine(0xfb) == 0x03 && Unaffine(0x3e) == 0xac && Times(0x03, 0xac) == 1;
    assert Affine(0xfc) == 0x70 && Unaffine(0xd7) == 0x16 && Times(0x70, 0x16) == 1;
    assert Affine(0xfd) == 0xbb && Unaffine(0xcb) == 0x74 && Times(0xbb, 0x74) == 1;
    assert Affine(0xfe) == 0xe7 && Unaffine(0x39) == 0x34 && Times(0xe7, 0x34) == 1;
    assert Affine(0xff) == 0x2c && Unaffine(0x48) == 0x38 && Times(0x2c, 0x38) == 1;
  }

  /** For every byte: the S-box is inversion in the field between two affine maps, 0 being inverse to itself. */
  lemma SboxInverts(x: bv8) returns (z: bv8)
    ensures Inverse(Affine(x), z) && Sbox(x) == Affine(z)
  {
    hide Inverts, Sbox;
    Algebra0();
    Algebra1();
    Algebra2();
    Algebra3();
    Algebra4();
    Algebra5();
    Algebra6();
    Algebra7();
    Algebra8();
    Algebra9();
    Algebra10();
    Algebra11();
    Algebra12();
    Algebra13();
    Algebra14();
    Algebra15();
    assert Inverts(x);
    z := Unaffine(Sbox(x));
    InvertsBy(x, z);
  }

  lemma InvertsBy(x: bv8, z: bv8)
    requires Inverts(x) && z == Unaffine(Sbox(x))
    ensures Inverse(Affine(x), z) && Sbox(x) == Affine(z)
  {
    hide Affine, Unaffine, Times, Sbox;
    AffineBack(Sbox(x));
  }

  // ----- the key constants -----

  ghost predicate Counts(i: nat)
    requires i < 32
  {
    && |CK| == 32
    && var b := Be32(CK[i]);
    && b[0] as int == 28 * i % 256 && b[1] as int == (28 * i + 7) % 256
    && b[2] as int == (28 * i + 14) % 256 && b[3] as int == (28 * i + 21) % 256
  }

  lemma Constants0()
    ensures |CK| == 32
    ensures CK[0] == 0x00070e15 && CK[1] == 0x1c232a31
         && CK[2] == 0x383f464d && CK[3] == 0x545b6269
  {
    hide SBOX;
  }

  lemma Counting0()
    ensures Counts(0) && Counts(1) && Counts(2) && Counts(3)
  {
    hide SBOX, CK;
    Constants0();
    assert Be32(0x00070e15) == [0x00, 0x07, 0x0e, 0x15];
    assert Be32(0x1c232a31) == [0x1c, 0x23, 0x2a, 0x31];
    assert Be32(0x383f464d) == [0x38, 0x3f, 0x46, 0x4d];
    assert Be32(0x545b6269) == [0x54, 0x5b, 0x62, 0x69];
  }

  lemma Constants1()
    ensures |CK| == 32
    ensures CK[4] == 0x70777e85 && CK[5] == 0x8c939aa1
         && CK[6] == 0xa8afb6bd && CK[7] == 0xc4cbd2d9
  {
    hide SBOX;
  }

  lemma Counting1()
    ensures Counts(4) && Counts(5) && Counts(6) && Counts(7)
  {
    hide SBOX, CK;
    Constants1();
    assert Be32(0x70777e85) == [0x70, 0x77, 0x7e, 0x85];
    assert Be32(0x8c939aa1) == [0x8c, 0x93, 0x9a, 0xa1];
    assert Be32(0xa8afb6bd) == [0xa8, 0xaf, 0xb6, 0xbd];
    assert Be32(0xc4cbd2d9) == [0xc4, 0xcb, 0xd2, 0xd9];
  }

  lemma Constants2()
    ensures |CK| == 32
    ensures CK[8] == 0xe0e7eef5 && CK[9] == 0xfc030a11
         && CK[10] == 0x181f262d && CK[11] == 0x343b4249
  {
    hide SBOX;
  }

  lemma Counting2()
    ensures Counts(8) && Counts(9) && Counts(10) && Counts(11)
  {
    hide SBOX, CK;
    Constants2();
    assert Be32(0xe0e7eef5) == [0xe0, 0xe7, 0xee, 0xf5];
    assert Be32(0xfc030a11) == [0xfc, 0x03, 0x0a, 0x11];
    assert Be32(0x181f262d) == [0x18, 0x1f, 0x26, 0x2d];
    assert Be32(0x343b4249) == [0x34, 0x3b, 0x42, 0x49];
  }

  lemma Constants3()
    ensures |CK| == 32
    ensures CK[12] == 0x50575e65 && CK[13] == 0x6c737a81
         && CK[14] == 0x888f969d && CK[15] == 0xa4abb2b9
  {
    hide SBOX;
  }

  lemma Counting3()
    ensures Counts(12) && Counts(13) && Counts(14) && Counts(15)
  {
    hide SBOX, CK;
    Constants3();
    assert Be32(0x50575e65) == [0x50, 0x57, 0x5e, 0x65];
    assert Be32(0x6c737a81) == [0x6c, 0x73, 0x7a, 0x81];
    assert Be32(0x888f969d) == [0x88, 0x8f, 0x96, 0x9d];
    assert Be32(0xa4abb2b9) == [0xa4, 0xab, 0xb2, 0xb9];
  }

  lemma Constants4()
    ensures |CK| == 32
    ensures CK[16] == 0xc0c7ced5 && CK[17] == 0xdce3eaf1
         && CK[18] == 0xf8ff060d && CK[19] == 0x141b2229
  {
    hide SBOX;
  }

  lemma Counting4()
    ensures Counts(16) && Counts(17) && Counts(18) && Counts(19)
  {
    hide SBOX, CK;
    Constants4();
    assert Be32(0xc0c7ced5) == [0xc0, 0xc7, 0xce, 0xd5];
    assert Be32(0xdce3eaf1) == [0xdc, 0xe3, 0xea, 0xf1];
    assert Be32(0xf8ff060d) == [0xf8, 0xff, 0x06, 0x0d];
    assert Be32(0x141b2229) == [0x14, 0x1b, 0x22, 0x29];
  }

  lemma Constants5()
    ensures |CK| == 32
    ensures CK[20] == 0x30373e45 && CK[21] == 0x4c535a61
         && CK[22] == 0x686f767d && CK[23] == 0x848b9299
  {
    hide SBOX;
  }

  lemma Counting5()
    ensures Counts(20) && Counts(21) && Counts(22) && Counts(23)
  {
    hide SBOX, CK;
    Constants5();
    assert Be32(0x30373e45) == [0x30, 0x37, 0x3e, 0x45];
    assert Be32(0x4c535a61) == [0x4c, 0x53, 0x5a, 0x61];
    assert Be32(0x686f767d) == [0x68, 0x6f, 0x76, 0x7d];
    assert Be32(0x848b9299) == [0x84, 0x8b, 0x92, 0x99];
  }

  lemma Constants6()
    ensures |CK| == 32
    ensures CK[24] == 0xa0a7aeb5 && CK[25] == 0xbcc3cad1
         && CK[26] == 0xd8dfe6ed && CK[27] == 0xf4fb0209
  {
    hide SBOX;
  }

  lemma Counting6()
    ensures Counts(24) && Counts(25) && Counts(26) && Counts(27)
  {
    hide SBOX, CK;
    Constants6();
    assert Be32(0xa0a7aeb5) == [0xa0, 0xa7, 0xae, 0xb5];
    assert Be32(0xbcc3cad1) == [0xbc, 0xc3, 0xca, 0xd1];
    assert Be32(0xd8dfe6ed) == [0xd8, 0xdf, 0xe6, 0xed];
    assert Be32(0xf4fb0209) == [0xf4, 0xfb, 0x02, 0x09];
  }

  lemma Constants7()
    ensures |CK| == 32
    ensures CK[28] == 0x10171e25 && CK[29] == 0x2c333a41
         && CK[30] == 0x484f565d && CK[31] == 0x646b7279
  {
    hide SBOX;
  }

  lemma Counting7()
    ensures Counts(28) && Counts(29) && Counts(30) && Counts(31)
  {
    hide SBOX, CK;
    Constants7();
    assert Be32(0x10171e25) == [0x10, 0x17, 0x1e, 0x25];
    assert Be32(0x2c333a41) == [0x2c, 0x33, 0x3a, 0x41];
    assert Be32(0x484f565d) == [0x48, 0x4f, 0x56, 0x5d];
    assert Be32(0x646b7279) == [0x64, 0x6b, 0x72, 0x79];
  }

  lemma CountsEach(i: nat, b: seq<bv8>, j: nat)
    requires |b| == 4 && j < 4
    requires b[0] as int == 28 * i % 256 && b[1] as int == (28 * i + 7) % 256
    requires b[2] as int == (28 * i + 14) % 256 && b[3] as int == (28 * i + 21) % 256
    ensures b[j] as int == 7 * (4 * i + j) % 256
  {
    assert 7 * (4 * i + j) == 28 * i + 7 * j;
    if j == 0 {
    } else if j == 1 {
    } else if j == 2 {
    } else {
      assert j == 3;
    }
  }

  /** Byte j of the constant i is 7 (4 i + j) modulo 256. */
  lemma ConstantsCount(i: nat, j: nat)
    requires i < 32 && j < 4
    ensures |CK| == 32 && Be32(CK[i])[j] as int == 7 * (4 * i + j) % 256
  {
    hide Be32, CK;
    AllCount(i);
    CountsEach(i, Be32(CK[i]), j);
  }

  lemma AllCount(i: nat)
    requires i < 32
    ensures Counts(i)
  {
    hide Counts, CK;
    Counting0(); Counting1(); Counting2(); Counting3();
    Counting4(); Counting5(); Counting6(); Counting7();
  }
}
