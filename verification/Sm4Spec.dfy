/** The SM4 tables and block function (GM/T 0002-2012), and the ECB and CBC modes over whole byte strings. */
module Sm4Spec {
  import opened Words
  import opened Feistel

  const SBOX: seq<seq<bv8>> := [
    [0xd6, 0x90, 0xe9, 0xfe, 0xcc, 0xe1, 0x3d, 0xb7, 0x16, 0xb6, 0x14, 0xc2, 0x28, 0xfb, 0x2c, 0x05],
    [0x2b, 0x67, 0x9a, 0x76, 0x2a, 0xbe, 0x04, 0xc3, 0xaa, 0x44, 0x13, 0x26, 0x49, 0x86, 0x06, 0x99],
    [0x9c, 0x42, 0x50, 0xf4, 0x91, 0xef, 0x98, 0x7a, 0x33, 0x54, 0x0b, 0x43, 0xed, 0xcf, 0xac, 0x62],
    [0xe4, 0xb3, 0x1c, 0xa9, 0xc9, 0x08, 0xe8, 0x95, 0x80, 0xdf, 0x94, 0xfa, 0x75, 0x8f, 0x3f, 0xa6],
    [0x47, 0x07, 0xa7, 0xfc, 0xf3, 0x73, 0x17, 0xba, 0x83, 0x59, 0x3c, 0x19, 0xe6, 0x85, 0x4f, 0xa8],
    [0x68, 0x6b, 0x81, 0xb2, 0x71, 0x64, 0xda, 0x8b, 0xf8, 0xeb, 0x0f, 0x4b, 0x70, 0x56, 0x9d, 0x35],
    [0x1e, 0x24, 0x0e, 0x5e, 0x63, 0x58, 0xd1, 0xa2, 0x25, 0x22, 0x7c, 0x3b, 0x01, 0x21, 0x78, 0x87],
    [0xd4, 0x00, 0x46, 0x57, 0x9f, 0xd3, 0x27, 0x52, 0x4c, 0x36, 0x02, 0xe7, 0xa0, 0xc4, 0xc8, 0x9e],
    [0xea, 0xbf, 0x8a, 0xd2, 0x40, 0xc7, 0x38, 0xb5, 0xa3, 0xf7, 0xf2, 0xce, 0xf9, 0x61, 0x15, 0xa1],
    [0xe0, 0xae, 0x5d, 0xa4, 0x9b, 0x34, 0x1a, 0x55, 0xad, 0x93, 0x32, 0x30, 0xf5, 0x8c, 0xb1, 0xe3],
    [0x1d, 0xf6, 0xe2, 0x2e, 0x82, 0x66, 0xca, 0x60, 0xc0, 0x29, 0x23, 0xab, 0x0d, 0x53, 0x4e, 0x6f],
    [0xd5, 0xdb, 0x37, 0x45, 0xde, 0xfd, 0x8e, 0x2f, 0x03, 0xff, 0x6a, 0x72, 0x6d, 0x6c, 0x5b, 0x51],
    [0x8d, 0x1b, 0xaf, 0x92, 0xbb, 0xdd, 0xbc, 0x7f, 0x11, 0xd9, 0x5c, 0x41, 0x1f, 0x10, 0x5a, 0xd8],
    [0x0a, 0xc1, 0x31, 0x88, 0xa5, 0xcd, 0x7b, 0xbd, 0x2d, 0x74, 0xd0, 0x12, 0xb8, 0xe5, 0xb4, 0xb0],
    [0x89, 0x69, 0x97, 0x4a, 0x0c, 0x96, 0x77, 0x7e, 0x65, 0xb9, 0xf1, 0x09, 0xc5, 0x6e, 0xc6, 0x84],
    [0x18, 0xf0, 0x7d, 0xec, 0x3a, 0xdc, 0x4d, 0x20, 0x79, 0xee, 0x5f, 0x3e, 0xd7, 0xcb, 0x39, 0x48]
  ]

  const FK: seq<bv32> := [0xa3b1bac6, 0x56aa3350, 0x677d9197, 0xb27022dc]

  const CK: seq<bv32> := [
    0x00070e15, 0x1c232a31, 0x383f464d, 0x545b6269,
    0x70777e85, 0x8c939aa1, 0xa8afb6bd, 0xc4cbd2d9,
    0xe0e7eef5, 0xfc030a11, 0x181f262d, 0x343b4249,
    0x50575e65, 0x6c737a81, 0x888f969d, 0xa4abb2b9,
    0xc0c7ced5, 0xdce3eaf1, 0xf8ff060d, 0x141b2229,
    0x30373e45, 0x4c535a61, 0x686f767d, 0x848b9299,
    0xa0a7aeb5, 0xbcc3cad1, 0xd8dfe6ed, 0xf4fb0209,
    0x10171e25, 0x2c333a41, 0x484f565d, 0x646b7279
  ]

  lemma TableSizes()
    ensures |SBOX| == 16 && (forall i :: 0 <= i < 16 ==> |SBOX[i]| == 16) && |FK| == 4 && |CK| == 32
  {
  }

  // ----- `sm4Sbox`, `sm4Lt`, `sm4CalciRK` -----

  function Sbox(x: bv8): bv8 {
    TableSizes();
    SBOX[x as int / 16][x as int % 16]
  }

  function Tau(ka: bv32): bv32 {
    var a := Be32(ka);
    Word([Sbox(a[0]), Sbox(a[1]), Sbox(a[2]), Sbox(a[3])], 0)
  }

  function Lt(ka: bv32): bv32 {
    var bb := Tau(ka);
    bb ^ Rotl(bb, 2) ^ Rotl(bb, 10) ^ Rotl(bb, 18) ^ Rotl(bb, 24)
  }

  function CalciRK(ka: bv32): bv32 {
    var bb := Tau(ka);
    bb ^ Rotl(bb, 13) ^ Rotl(bb, 23)
  }

  // ----- blocks and words -----

  function Load(b: seq<bv8>): Quad
    requires |b| == 16
  {
    Quad(Word(b, 0), Word(b, 4), Word(b, 8), Word(b, 12))
  }

  function Store(q: Quad): (b: seq<bv8>)
    ensures |b| == 16
  {
    Be32(q.x0) + Be32(q.x1) + Be32(q.x2) + Be32(q.x3)
  }

  lemma LoadStored(q: Quad)
    ensures Load(Store(q)) == q
  {
    hide Word, Be32;
    var b := Store(q);
    WordInMiddle([], q.x0, Be32(q.x1) + Be32(q.x2) + Be32(q.x3));
    WordInMiddle(Be32(q.x0), q.x1, Be32(q.x2) + Be32(q.x3));
    WordInMiddle(Be32(q.x0) + Be32(q.x1), q.x2, Be32(q.x3));
    WordInMiddle(Be32(q.x0) + Be32(q.x1) + Be32(q.x2), q.x3, []);
    assert b == [] + Be32(q.x0) + (Be32(q.x1) + Be32(q.x2) + Be32(q.x3));
    assert b == Be32(q.x0) + Be32(q.x1) + (Be32(q.x2) + Be32(q.x3));
    assert b == Be32(q.x0) + Be32(q.x1) + Be32(q.x2) + Be32(q.x3) + [];
  }

  lemma StoreLoaded(b: seq<bv8>)
    requires |b| == 16
    ensures Store(Load(b)) == b
  {
    hide Word, Be32;
    Be32OfWord(b, 0);
    Be32OfWord(b, 4);
    Be32OfWord(b, 8);
    Be32OfWord(b, 12);
    assert b == b[0..4] + b[4..8] + b[8..12] + b[12..16];
  }

  /** One block under a list of round keys (section 7.1). */
  function CryptBlock(rks: seq<bv32>, b: seq<bv8>): (c: seq<bv8>)
    requires |b| == 16
    ensures |c| == 16
  {
    Store(Crypt(Lt, rks, Load(b)))
  }

  /** Decryption is encryption with the round keys reversed (section 7.2). */
  lemma BlockUndone(rks: seq<bv32>, b: seq<bv8>)
    requires |b| == 16
    ensures CryptBlock(Reverse(rks), CryptBlock(rks, b)) == b
  {
    hide Crypt, Load, Store;
    LoadStored(Crypt(Lt, rks, Load(b)));
    CryptUndone(Lt, rks, Load(b));
    StoreLoaded(b);
  }

  // ----- key schedule (section 7.3) -----

  function Masked(key: seq<bv8>): Quad
    requires |key| == 16
  {
    TableSizes();
    Quad(Xor(Word(key, 0), FK[0]), Xor(Word(key, 4), FK[1]), Xor(Word(key, 8), FK[2]), Xor(Word(key, 12), FK[3]))
  }

  /** The 36 words of the schedule: the masked key, then the round keys. */
  function Schedule(key: seq<bv8>): (k: seq<bv32>)
    requires |key| == 16
    ensures |k| == 36
  {
    TableSizes();
    Trace(CalciRK, CK, Masked(key))
  }

  function RoundKeys(key: seq<bv8>): (rks: seq<bv32>)
    requires |key| == 16
    ensures |rks| == 32
  {
    Schedule(key)[4..]
  }

  lemma MaskedInjective(key: seq<bv8>, key': seq<bv8>)
    requires |key| == 16 && |key'| == 16 && Masked(key) == Masked(key')
    ensures key == key'
  {
    hide Xor, Word, Be32;
    TableSizes();
    XorCancels(Word(key, 0), FK[0]);
    XorCancels(Word(key', 0), FK[0]);
    XorCancels(Word(key, 4), FK[1]);
    XorCancels(Word(key', 4), FK[1]);
    XorCancels(Word(key, 8), FK[2]);
    XorCancels(Word(key', 8), FK[2]);
    XorCancels(Word(key, 12), FK[3]);
    XorCancels(Word(key', 12), FK[3]);
    StoreLoaded(key);
    StoreLoaded(key');
  }

  /** Any four consecutive words of the schedule determine the key. */
  lemma FourWordsDetermineKey(key: seq<bv8>, key': seq<bv8>, i: nat)
    requires |key| == 16 && |key'| == 16 && i <= 32
    requires Schedule(key)[i..i + 4] == Schedule(key')[i..i + 4]
    ensures key == key'
  {
    hide Masked;
    TableSizes();
    TraceInjective(CalciRK, CK, i, Masked(key), Masked(key'));
    MaskedInjective(key, key');
  }

  /** No two keys have the same round keys. */
  lemma RoundKeysInjective(key: seq<bv8>, key': seq<bv8>)
    requires |key| == 16 && |key'| == 16 && RoundKeys(key) == RoundKeys(key')
    ensures key == key'
  {
    hide Schedule;
    assert Schedule(key)[4..8] == RoundKeys(key)[..4] && Schedule(key')[4..8] == RoundKeys(key')[..4];
    FourWordsDetermineKey(key, key', 4);
  }
}
