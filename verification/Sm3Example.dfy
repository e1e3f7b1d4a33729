/** The first example of GM/T 0004-2012, appendix A: the hash of "abc", word by word and round by round. */
module Sm3Example {
  import opened Words
  import opened Blocks
  import opened Sm3Spec

  const DIGEST: seq<bv8> := [
    0x66, 0xc7, 0xf0, 0xf4, 0x62, 0xee, 0xed, 0xd9, 0xd1, 0xf2, 0xd4, 0x6b, 0xdc, 0x10, 0xe4, 0xe2,
    0x41, 0x67, 0xc4, 0x87, 0x5c, 0xf2, 0xf7, 0xa2, 0x29, 0x7d, 0xa0, 0x2b, 0x8f, 0x4b, 0xa8, 0xe0
  ]

  const ABC: seq<bv8> := [0x61, 0x62, 0x63]

  /** The message with its padding: one block. */
  const BLOCK: seq<bv8> := [0x61, 0x62, 0x63, 0x80] + Zeros(59) + [0x18]

  lemma BlockSize()
    ensures |BLOCK| == 64
  {
  }

  lemma LengthOfAbc()
    ensures LengthField(3) == Zeros(7) + [0x18]
  {
    LengthWords();
    LengthBytes();
    hide Be32, LengthField;
  }

  lemma LengthWords()
    ensures LengthField(3) == Be32(0) + Be32(24)
  {
    hide Be32, BLOCK, DIGEST;
    assert 8 * 3 % TWO_64 == 24 && 24 as nat / TWO_32 == 0 && 24 as nat % TWO_32 == 24;
  }

  lemma LengthBytes()
    ensures Be32(0) == [0, 0, 0, 0] && Be32(24) == [0, 0, 0, 0x18]
  {
    hide BLOCK, DIGEST;
  }

  lemma Padded()
    ensures Pad(ABC) == BLOCK
  {
    hide LengthField;
    LengthOfAbc();
    assert ABC + [0x80] == [0x61, 0x62, 0x63, 0x80];
    ZerosJoin(52, 7);
    Join([0x61, 0x62, 0x63, 0x80], Zeros(52), Zeros(7), [0x18]);
  }

  lemma ZerosJoin(m: nat, n: nat)
    ensures Zeros(m) + Zeros(n) == Zeros(m + n)
  {
  }

  lemma Join(a: seq<bv8>, b: seq<bv8>, c: seq<bv8>, d: seq<bv8>)
    ensures a + b + (c + d) == a + (b + c) + d
  {
  }

  // ----- the message expansion -----

  /** A word of the expansion from the words 16, 9, 3, 13 and 6 places before it. */
  function Expand(a: bv32, b: bv32, c: bv32, d: bv32, e: bv32): bv32 {
    Xor(Xor(P1(Xor(Xor(a, b), Rotl(c, 15))), Rotl(d, 7)), e)
  }

  lemma ExpandedNext(block: Block, j: nat)
    requires j >= 16
    ensures Expanded(block, j) == Expand(Expanded(block, j - 16), Expanded(block, j - 9), Expanded(block, j - 3),
                                         Expanded(block, j - 13), Expanded(block, j - 6))
  {
    hide P1, Xor, Rotl;
  }

  /** The words at the front are the bytes of the block. */
  lemma FirstWord(block: Block, j: nat, p: bv8, q: bv8, r: bv8, s: bv8, w: bv32)
    requires j < 16 && block[4 * j..4 * j + 4] == [p, q, r, s] && Be32(w) == [p, q, r, s]
    ensures Expanded(block, j) == w
  {
    hide Be32, Word;
    Be32OfWord(block, 4 * j);
    WordOfBe32(w);
    WordOfBe32(Word(block, 4 * j));
  }

  lemma FirstWords()
    ensures |BLOCK| == 64 && Expanded(BLOCK, 0) == 0x61626380 && Expanded(BLOCK, 15) == 0x18
    ensures forall j :: 1 <= j < 15 ==> Expanded(BLOCK, j) == 0
  {
    assert Be32(0x61626380) == [0x61, 0x62, 0x63, 0x80] && Be32(0x18) == [0, 0, 0, 0x18] && Be32(0) == [0, 0, 0, 0];
    hide Be32, Expanded;
    FirstWord(BLOCK, 0, 0x61, 0x62, 0x63, 0x80, 0x61626380);
    FirstWord(BLOCK, 15, 0, 0, 0, 0x18, 0x18);
    forall j | 1 <= j < 15 ensures Expanded(BLOCK, j) == 0 {
      FirstWord(BLOCK, j, 0, 0, 0, 0, 0);
    }
  }

  lemma Expansion2()
    ensures Expand(0x61626380, 0x00000000, 0x00000000, 0x00000000, 0x00000000) == 0x9092e200
    ensures Expand(0x00000000, 0x00000000, 0x00000000, 0x00000000, 0x00000000) == 0x00000000
    ensures Expand(0x00000000, 0x00000000, 0x00000018, 0x00000000, 0x00000000) == 0x000c0606
    ensures Expand(0x00000000, 0x00000000, 0x9092e200, 0x00000000, 0x00000000) == 0x719c70ed
    ensures Expand(0x00000000, 0x00000000, 0x00000000, 0x00000000, 0x00000000) == 0x00000000
    ensures Expand(0x00000000, 0x00000000, 0x000c0606, 0x00000000, 0x00000018) == 0x8001801f
    ensures Expand(0x00000000, 0x00000000, 0x719c70ed, 0x00000000, 0x9092e200) == 0x939f7da9
    ensures Expand(0x00000000, 0x00000000, 0x00000000, 0x00000000, 0x00000000) == 0x00000000
  {
  }

  lemma Words2()
    ensures |BLOCK| == 64
    ensures Expanded(BLOCK, 16) == 0x9092e200 && Expanded(BLOCK, 17) == 0x00000000
    ensures Expanded(BLOCK, 18) == 0x000c0606 && Expanded(BLOCK, 19) == 0x719c70ed
    ensures Expanded(BLOCK, 20) == 0x00000000 && Expanded(BLOCK, 21) == 0x8001801f
    ensures Expanded(BLOCK, 22) == 0x939f7da9 && Expanded(BLOCK, 23) == 0x00000000
  {
    BlockSize();
    hide Expand, Expanded, BLOCK;
    FirstWords();
    Expansion2();
    ExpandedNext(BLOCK, 16); ExpandedNext(BLOCK, 17); ExpandedNext(BLOCK, 18); ExpandedNext(BLOCK, 19);
    ExpandedNext(BLOCK, 20); ExpandedNext(BLOCK, 21); ExpandedNext(BLOCK, 22); ExpandedNext(BLOCK, 23);
  }

  lemma Expansion3()
    ensures Expand(0x00000000, 0x00000018, 0x8001801f, 0x00000000, 0x000c0606) == 0x2c6fa1f9
    ensures Expand(0x00000000, 0x9092e200, 0x939f7da9, 0x00000000, 0x719c70ed) == 0xadaaef14
    ensures Expand(0x00000000, 0x00000000, 0x00000000, 0x00000000, 0x00000000) == 0x00000000
    ensures Expand(0x00000000, 0x000c0606, 0x2c6fa1f9, 0x00000000, 0x8001801f) == 0x0001801e
    ensures Expand(0x00000000, 0x719c70ed, 0xadaaef14, 0x00000018, 0x939f7da9) == 0x9a965f89
    ensures Expand(0x00000000, 0x00000000, 0x00000000, 0x9092e200, 0x00000000) == 0x49710048
    ensures Expand(0x00000000, 0x8001801f, 0x0001801e, 0x00000000, 0x2c6fa1f9) == 0x23ce86a1
    ensures Expand(0x00000018, 0x939f7da9, 0x9a965f89, 0x000c0606, 0xadaaef14) == 0xb2d12f1b
  {
  }

  lemma Words3()
    ensures |BLOCK| == 64
    ensures Expanded(BLOCK, 24) == 0x2c6fa1f9 && Expanded(BLOCK, 25) == 0xadaaef14
    ensures Expanded(BLOCK, 26) == 0x00000000 && Expanded(BLOCK, 27) == 0x0001801e
    ensures Expanded(BLOCK, 28) == 0x9a965f89 && Expanded(BLOCK, 29) == 0x49710048
    ensures Expanded(BLOCK, 30) == 0x23ce86a1 && Expanded(BLOCK, 31) == 0xb2d12f1b
  {
    BlockSize();
    hide Expand, Expanded, BLOCK;
    FirstWords(); Words2();
    Expansion3();
    ExpandedNext(BLOCK, 24); ExpandedNext(BLOCK, 25); ExpandedNext(BLOCK, 26); ExpandedNext(BLOCK, 27);
    ExpandedNext(BLOCK, 28); ExpandedNext(BLOCK, 29); ExpandedNext(BLOCK, 30); ExpandedNext(BLOCK, 31);
  }

  lemma Expansion4()
    ensures Expand(0x9092e200, 0x00000000, 0x49710048, 0x719c70ed, 0x00000000) == 0xe1dae338
    ensures Expand(0x00000000, 0x2c6fa1f9, 0x23ce86a1, 0x00000000, 0x0001801e) == 0xf8061807
    ensures Expand(0x000c0606, 0xadaaef14, 0xb2d12f1b, 0x8001801f, 0x9a965f89) == 0x055d68be
    ensures Expand(0x719c70ed, 0x00000000, 0xe1dae338, 0x939f7da9, 0x49710048) == 0x86cfd481
    ensures Expand(0x00000000, 0x0001801e, 0xf8061807, 0x00000000, 0x23ce86a1) == 0x1f447d83
    ensures Expand(0x8001801f, 0x9a965f89, 0x055d68be, 0x2c6fa1f9, 0xb2d12f1b) == 0xd9023dbf
    ensures Expand(0x939f7da9, 0x49710048, 0x86cfd481, 0xadaaef14, 0xe1dae338) == 0x185898e0
    ensures Expand(0x00000000, 0x23ce86a1, 0x1f447d83, 0x00000000, 0xf8061807) == 0xe0061807
  {
  }

  lemma Words4()
    ensures |BLOCK| == 64
    ensures Expanded(BLOCK, 32) == 0xe1dae338 && Expanded(BLOCK, 33) == 0xf8061807
    ensures Expanded(BLOCK, 34) == 0x055d68be && Expanded(BLOCK, 35) == 0x86cfd481
    ensures Expanded(BLOCK, 36) == 0x1f447d83 && Expanded(BLOCK, 37) == 0xd9023dbf
    ensures Expanded(BLOCK, 38) == 0x185898e0 && Expanded(BLOCK, 39) == 0xe0061807
  {
    BlockSize();
    hide Expand, Expanded, BLOCK;
    Words2(); Words3();
    Expansion4();
    ExpandedNext(BLOCK, 32); ExpandedNext(BLOCK, 33); ExpandedNext(BLOCK, 34); ExpandedNext(BLOCK, 35);
    ExpandedNext(BLOCK, 36); ExpandedNext(BLOCK, 37); ExpandedNext(BLOCK, 38); ExpandedNext(BLOCK, 39);
  }

  lemma Expansion5()
    ensures Expand(0x2c6fa1f9, 0xb2d12f1b, 0xd9023dbf, 0x0001801e, 0x055d68be) == 0x050df55c
    ensures Expand(0xadaaef14, 0xe1dae338, 0x185898e0, 0x9a965f89, 0x86cfd481) == 0xcde0104c
    ensures Expand(0x00000000, 0xf8061807, 0xe0061807, 0x49710048, 0x1f447d83) == 0xa5b9c955
    ensures Expand(0x0001801e, 0x055d68be, 0x050df55c, 0x23ce86a1, 0xd9023dbf) == 0xa7df0184
    ensures Expand(0x9a965f89, 0x86cfd481, 0xcde0104c, 0xb2d12f1b, 0x185898e0) == 0x6e46cd08
    ensures Expand(0x49710048, 0x1f447d83, 0xa5b9c955, 0xe1dae338, 0xe0061807) == 0xe3babdf8
    ensures Expand(0x23ce86a1, 0xd9023dbf, 0xa7df0184, 0xf8061807, 0x050df55c) == 0x70caa422
    ensures Expand(0xb2d12f1b, 0x185898e0, 0x6e46cd08, 0x055d68be, 0xcde0104c) == 0x0353af50
  {
  }

  lemma Words5()
    ensures |BLOCK| == 64
    ensures Expanded(BLOCK, 40) == 0x050df55c && Expanded(BLOCK, 41) == 0xcde0104c
    ensures Expanded(BLOCK, 42) == 0xa5b9c955 && Expanded(BLOCK, 43) == 0xa7df0184
    ensures Expanded(BLOCK, 44) == 0x6e46cd08 && Expanded(BLOCK, 45) == 0xe3babdf8
    ensures Expanded(BLOCK, 46) == 0x70caa422 && Expanded(BLOCK, 47) == 0x0353af50
  {
    BlockSize();
    hide Expand, Expanded, BLOCK;
    Words3(); Words4();
    Expansion5();
    ExpandedNext(BLOCK, 40); ExpandedNext(BLOCK, 41); ExpandedNext(BLOCK, 42); ExpandedNext(BLOCK, 43);
    ExpandedNext(BLOCK, 44); ExpandedNext(BLOCK, 45); ExpandedNext(BLOCK, 46); ExpandedNext(BLOCK, 47);
  }

  lemma Expansion6()
    ensures Expand(0xe1dae338, 0xe0061807, 0xe3babdf8, 0x86cfd481, 0xa5b9c955) == 0xa92dbca1
    ensures Expand(0xf8061807, 0x050df55c, 0x70caa422, 0x1f447d83, 0xa7df0184) == 0x5f33cfd2
    ensures Expand(0x055d68be, 0xcde0104c, 0x0353af50, 0xd9023dbf, 0x6e46cd08) == 0xe16f6e89
    ensures Expand(0x86cfd481, 0xa5b9c955, 0xa92dbca1, 0x185898e0, 0xe3babdf8) == 0xf70fe941
    ensures Expand(0x1f447d83, 0xa7df0184, 0x5f33cfd2, 0xe0061807, 0x70caa422) == 0xca5462dc
    ensures Expand(0xd9023dbf, 0x6e46cd08, 0xe16f6e89, 0x050df55c, 0x0353af50) == 0x85a90152
    ensures Expand(0x185898e0, 0xe3babdf8, 0xf70fe941, 0xcde0104c, 0xa92dbca1) == 0x76af6296
    ensures Expand(0xe0061807, 0x70caa422, 0xca5462dc, 0xa5b9c955, 0x5f33cfd2) == 0xc922bdb2
  {
  }

  lemma Words6()
    ensures |BLOCK| == 64
    ensures Expanded(BLOCK, 48) == 0xa92dbca1 && Expanded(BLOCK, 49) == 0x5f33cfd2
    ensures Expanded(BLOCK, 50) == 0xe16f6e89 && Expanded(BLOCK, 51) == 0xf70fe941
    ensures Expanded(BLOCK, 52) == 0xca5462dc && Expanded(BLOCK, 53) == 0x85a90152
    ensures Expanded(BLOCK, 54) == 0x76af6296 && Expanded(BLOCK, 55) == 0xc922bdb2
  {
    BlockSize();
    hide Expand, Expanded, BLOCK;
    Words4(); Words5();
    Expansion6();
    ExpandedNext(BLOCK, 48); ExpandedNext(BLOCK, 49); ExpandedNext(BLOCK, 50); ExpandedNext(BLOCK, 51);
    ExpandedNext(BLOCK, 52); ExpandedNext(BLOCK, 53); ExpandedNext(BLOCK, 54); ExpandedNext(BLOCK, 55);
  }

  lemma Expansion7()
    ensures Expand(0x050df55c, 0x0353af50, 0x85a90152, 0xa7df0184, 0xe16f6e89) == 0x68378cf5
    ensures Expand(0xcde0104c, 0xa92dbca1, 0x76af6296, 0x6e46cd08, 0xf70fe941) == 0x97585344
    ensures Expand(0xa5b9c955, 0x5f33cfd2, 0xc922bdb2, 0xe3babdf8, 0xca5462dc) == 0x09008723
    ensures Expand(0xa7df0184, 0xe16f6e89, 0x68378cf5, 0x70caa422, 0x85a90152) == 0x86faee74
    ensures Expand(0x6e46cd08, 0xf70fe941, 0x97585344, 0x0353af50, 0x76af6296) == 0x2ab908b0
    ensures Expand(0xe3babdf8, 0xca5462dc, 0x09008723, 0xa92dbca1, 0xc922bdb2) == 0x4a64bc50
    ensures Expand(0x70caa422, 0x85a90152, 0x86faee74, 0x5f33cfd2, 0x68378cf5) == 0x864e6e08
    ensures Expand(0x0353af50, 0x76af6296, 0x2ab908b0, 0xe16f6e89, 0x97585344) == 0xf07e6590
  {
  }

  lemma Words7()
    ensures |BLOCK| == 64
    ensures Expanded(BLOCK, 56) == 0x68378cf5 && Expanded(BLOCK, 57) == 0x97585344
    ensures Expanded(BLOCK, 58) == 0x09008723 && Expanded(BLOCK, 59) == 0x86faee74
    ensures Expanded(BLOCK, 60) == 0x2ab908b0 && Expanded(BLOCK, 61) == 0x4a64bc50
    ensures Expanded(BLOCK, 62) == 0x864e6e08 && Expanded(BLOCK, 63) == 0xf07e6590
  {
    BlockSize();
    hide Expand, Expanded, BLOCK;
    Words5(); Words6();
    Expansion7();
    ExpandedNext(BLOCK, 56); ExpandedNext(BLOCK, 57); ExpandedNext(BLOCK, 58); ExpandedNext(BLOCK, 59);
    ExpandedNext(BLOCK, 60); ExpandedNext(BLOCK, 61); ExpandedNext(BLOCK, 62); ExpandedNext(BLOCK, 63);
  }

  lemma Expansion8()
    ensures Expand(0xa92dbca1, 0xc922bdb2, 0x4a64bc50, 0xf70fe941, 0x09008723) == 0x325c8f78
    ensures Expand(0x5f33cfd2, 0x68378cf5, 0x864e6e08, 0xca5462dc, 0x86faee74) == 0xaccb8011
    ensures Expand(0xe16f6e89, 0x97585344, 0xf07e6590, 0x85a90152, 0x2ab908b0) == 0xe11db9dd
    ensures Expand(0xf70fe941, 0x09008723, 0x325c8f78, 0x76af6296, 0x4a64bc50) == 0xb99c0545
  {
  }

  lemma Words8()
    ensures |BLOCK| == 64
    ensures Expanded(BLOCK, 64) == 0x325c8f78 && Expanded(BLOCK, 65) == 0xaccb8011
    ensures Expanded(BLOCK, 66) == 0xe11db9dd && Expanded(BLOCK, 67) == 0xb99c0545
  {
    BlockSize();
    hide Expand, Expanded, BLOCK;
    Words6(); Words7();
    Expansion8();
    ExpandedNext(BLOCK, 64); ExpandedNext(BLOCK, 65); ExpandedNext(BLOCK, 66); ExpandedNext(BLOCK, 67);
  }

  // ----- the rounds -----

  lemma RoundsNone(block: Block)
    ensures Rounds(0, IV, block) == IV
  {
  }

  lemma RoundsNext(n: nat, block: Block)
    ensures Rounds(n + 1, IV, block)
         == Round(n, Rounds(n, IV, block), Expanded(block, n), Xor(Expanded(block, n), Expanded(block, n + 4)))
  {
    hide Round, Expanded, Xor;
  }

  /** One round by its intermediate results. */
  lemma RoundBy(j: nat, r: Regs, w: bv32, w1: bv32,
                r12: bv32, tj: bv32, s1: bv32, s2: bv32, ss1: bv32, ss2: bv32,
                ff: bv32, t1: bv32, t2: bv32, tt1: bv32, gg: bv32, u1: bv32,
                u2: bv32, tt2: bv32, c: bv32, e: bv32, g: bv32)
    requires Rotl(r.a, 12) == r12 && Rotl(T(j), j % 32) == tj
    requires Add(r12, r.e) == s1 && Add(s1, tj) == s2 && Rotl(s2, 7) == ss1 && Xor(ss1, r12) == ss2
    requires FF(j, r.a, r.b, r.c) == ff && Add(ff, r.d) == t1 && Add(t1, ss2) == t2 && Add(t2, w1) == tt1
    requires GG(j, r.e, r.f, r.g) == gg && Add(gg, r.h) == u1 && Add(u1, ss1) == u2 && Add(u2, w) == tt2
    requires Rotl(r.b, 9) == c && P0(tt2) == e && Rotl(r.f, 19) == g
    ensures Round(j, r, w, w1) == Regs(tt1, r.a, c, r.c, e, r.e, g, r.g)
  {
    hide Rotl, Add, Xor, FF, GG, P0, T;
  }

  lemma After2()
    ensures |BLOCK| == 64 && Rounds(2, IV, BLOCK)
         == Regs(0xea52428c, 0xb9edc12b, 0x002cdee7, 0x29657292,
                 0xac353a23, 0xb2ad29f4, 0x85e54b79, 0xc550b189)
  {
    BlockSize();
    hide Round, Rounds, Expanded, BLOCK;
    RoundsNone(BLOCK);
    FirstWords();
    assert Xor(0x61626380, 0x00000000) == 0x61626380 && Xor(0x00000000, 0x00000000) == 0x00000000;
    RoundBy(0, Regs(0x7380166f, 0x4914b2b9, 0x172442d7, 0xda8a0600,
                     0xa96f30bc, 0x163138aa, 0xe38dee4d, 0xb0fb0e4e), 0x61626380, 0x61626380,
            0x0166f738, 0x79cc4519, 0xaad627f4, 0x24a26d0d, 0x51368692, 0x505071aa,
            0x2db0e601, 0x083aec01, 0x588b5dab, 0xb9edc12b, 0x5cd3e65b, 0x0dcef4a9,
            0x5f057b3b, 0xc067debb, 0x29657292, 0xb2ad29f4, 0xc550b189);
    RoundsNext(0, BLOCK);
    RoundBy(1, Regs(0xb9edc12b, 0x7380166f, 0x29657292, 0x172442d7,
                     0xb2ad29f4, 0xa96f30bc, 0xc550b189, 0xe38dee4d), 0x00000000, 0x00000000,
            0xdc12bb9e, 0xf3988a32, 0x8ebfe592, 0x82586fc4, 0x2c37e241, 0xf02559df,
            0xe308a5d6, 0xfa2ce8ad, 0xea52428c, 0xea52428c, 0xde92a8c1, 0xc220970e,
            0xee58794f, 0xee58794f, 0x002cdee7, 0xac353a23, 0x85e54b79);
    RoundsNext(1, BLOCK);
  }

  lemma After4()
    ensures |BLOCK| == 64 && Rounds(4, IV, BLOCK)
         == Regs(0x35037e59, 0x609f2850, 0xa48519d4, 0xdb825773,
                 0xb8204b5f, 0xd33ad5fb, 0xd11d61a9, 0x4fa59569)
  {
    BlockSize();
    hide Round, Rounds, Expanded, BLOCK;
    After2();
    FirstWords();
    assert Xor(0x00000000, 0x00000000) == 0x00000000 && Xor(0x00000000, 0x00000000) == 0x00000000;
    RoundBy(2, Regs(0xea52428c, 0xb9edc12b, 0x002cdee7, 0x29657292,
                     0xac353a23, 0xb2ad29f4, 0x85e54b79, 0xc550b189), 0x00000000, 0x00000000,
            0x2428cea5, 0xe7311465, 0xd05e08c8, 0xb78f1d2d, 0xc78e96db, 0xe3a6587e,
            0x53935d40, 0x7cf8cfd2, 0x609f2850, 0x609f2850, 0x9b7d58ae, 0x60ce0a37,
            0x285ca112, 0x285ca112, 0xdb825773, 0xd33ad5fb, 0x4fa59569);
    RoundsNext(2, BLOCK);
    RoundBy(3, Regs(0x609f2850, 0xea52428c, 0xdb825773, 0x002cdee7,
                     0xd33ad5fb, 0xac353a23, 0x4fa59569, 0x85e54b79), 0x00000000, 0x00000000,
            0xf2850609, 0xce6228cb, 0xc5bfdc04, 0x942204cf, 0x110267ca, 0xe38761c3,
            0x514f3daf, 0x517c1c96, 0x35037e59, 0x35037e59, 0x30aa7ab1, 0xb68fc62a,
            0xc7922df4, 0xc7922df4, 0xa48519d4, 0xb8204b5f, 0xd11d61a9);
    RoundsNext(3, BLOCK);
  }

  lemma After6()
    ensures |BLOCK| == 64 && Rounds(6, IV, BLOCK)
         == Regs(0x374a0ca7, 0x1f995766, 0x06fcb26a, 0x3e50a0c1,
                 0xacf0f639, 0x8ad212ea, 0x5afdc102, 0xafde99d6)
  {
    BlockSize();
    hide Round, Rounds, Expanded, BLOCK;
    After4();
    FirstWords();
    assert Xor(0x00000000, 0x00000000) == 0x00000000 && Xor(0x00000000, 0x00000000) == 0x00000000;
    RoundBy(4, Regs(0x35037e59, 0x609f2850, 0xa48519d4, 0xdb825773,
                     0xb8204b5f, 0xd33ad5fb, 0xd11d61a9, 0x4fa59569), 0x00000000, 0x00000000,
            0x37e59350, 0x9cc45197, 0xf005deaf, 0x8cca3046, 0x65182346, 0x52fdb016,
            0xf1194fdd, 0xcc9ba750, 0x1f995766, 0x1f995766, 0xba07ff0d, 0x09ad9476,
            0x6ec5b7bc, 0x6ec5b7bc, 0x3e50a0c1, 0x8ad212ea, 0xafde99d6);
    RoundsNext(4, BLOCK);
    RoundBy(5, Regs(0x1f995766, 0x35037e59, 0x3e50a0c1, 0xa48519d4,
                     0x8ad212ea, 0xb8204b5f, 0xafde99d6, 0xd11d61a9), 0x00000000, 0x00000000,
            0x957661f9, 0x3988a32f, 0x204874e3, 0x59d11812, 0xe88c092c, 0x7dfa68d5,
            0x14ca89fe, 0xb94fa3d2, 0x374a0ca7, 0x374a0ca7, 0x9d2cc063, 0x6e4a220c,
            0x56d62b38, 0x56d62b38, 0x06fcb26a, 0xacf0f639, 0x5afdc102);
    RoundsNext(5, BLOCK);
  }

  lemma After8()
    ensures |BLOCK| == 64 && Rounds(8, IV, BLOCK)
         == Regs(0x1022ac97, 0x33130100, 0x94194e6e, 0x32aecc3f,
                 0x367250a1, 0x3391ec8a, 0xb1cd6787, 0x97545690)
  {
    BlockSize();
    hide Round, Rounds, Expanded, BLOCK;
    After6();
    FirstWords();
    assert Xor(0x00000000, 0x00000000) == 0x00000000 && Xor(0x00000000, 0x00000000) == 0x00000000;
    RoundBy(6, Regs(0x374a0ca7, 0x1f995766, 0x06fcb26a, 0x3e50a0c1,
                     0xacf0f639, 0x8ad212ea, 0x5afdc102, 0xafde99d6), 0x00000000, 0x00000000,
            0xa0ca7374, 0x7311465e, 0x4dbb69ad, 0xc0ccb00b, 0x665805e0, 0xc6927694,
            0x2e2fe9ab, 0x6c808a6c, 0x33130100, 0x33130100, 0x7cdf25d1, 0x2cbdbfa7,
            0x9315c587, 0x9315c587, 0x32aecc3f, 0x3391ec8a, 0x97545690);
    RoundsNext(6, BLOCK);
    RoundBy(7, Regs(0x33130100, 0x374a0ca7, 0x32aecc3f, 0x06fcb26a,
                     0x3391ec8a, 0xacf0f639, 0x97545690, 0x5afdc102), 0x00000000, 0x00000000,
            0x30100331, 0xe6228cbc, 0x63a1efbb, 0x49c47c77, 0xe23e3ba4, 0xd22e3895,
            0x36f7c198, 0x3df47402, 0x1022ac97, 0x1022ac97, 0x08354c23, 0x63330d25,
            0x457148c9, 0x457148c9, 0x94194e6e, 0x367250a1, 0xb1cd6787);
    RoundsNext(7, BLOCK);
  }

  lemma After10()
    ensures |BLOCK| == 64 && Rounds(10, IV, BLOCK)
         == Regs(0x59c2744b, 0xd47caf4c, 0x45592e20, 0x26020066,
                 0xc6a3ceae, 0x6ad473a4, 0x8509b392, 0x64519c8f)
  {
    BlockSize();
    hide Round, Rounds, Expanded, BLOCK;
    After8();
    FirstWords();
    assert Xor(0x00000000, 0x00000000) == 0x00000000 && Xor(0x00000000, 0x00000000) == 0x00000000;
    RoundBy(8, Regs(0x1022ac97, 0x33130100, 0x94194e6e, 0x32aecc3f,
                     0x367250a1, 0x3391ec8a, 0xb1cd6787, 0x97545690), 0x00000000, 0x00000000,
            0x2ac97102, 0xcc451979, 0x613bc1a3, 0x2d80db1c, 0xc06d8e16, 0xeaa4ff14,
            0xb728e3f9, 0xe9d7b038, 0xd47caf4c, 0xd47caf4c, 0xb42edbac, 0x4b83323c,
            0x0bf0c052, 0x0bf0c052, 0x26020066, 0x6ad473a4, 0x64519c8f);
    RoundsNext(8, BLOCK);
    RoundBy(9, Regs(0xd47caf4c, 0x1022ac97, 0x26020066, 0x94194e6e,
                     0x6ad473a4, 0x367250a1, 0x64519c8f, 0xb1cd6787), 0x00000000, 0x00000000,
            0xcaf4cd47, 0x988a32f3, 0x35c940eb, 0xce5373de, 0x29b9ef67, 0xe34d2220,
            0xe25c03bd, 0x7675522b, 0x59c2744b, 0x59c2744b, 0x38f7bf8a, 0xeac52711,
            0x147f1678, 0x147f1678, 0x45592e20, 0xc6a3ceae, 0x8509b392);
    RoundsNext(9, BLOCK);
  }

  lemma After12()
    ensures |BLOCK| == 64 && Rounds(12, IV, BLOCK)
         == Regs(0x694a3d09, 0x481ba2a0, 0x84e896b3, 0xf95e99a8,
                 0x9dd1b58c, 0x02afb727, 0x7576351e, 0x9d2356a3)
  {
    BlockSize();
    hide Round, Rounds, Expanded, BLOCK;
    After10();
    FirstWords();
    assert Xor(0x00000000, 0x00000000) == 0x00000000 && Xor(0x00000000, 0x00000018) == 0x00000018;
    RoundBy(10, Regs(0x59c2744b, 0xd47caf4c, 0x45592e20, 0x26020066,
                     0xc6a3ceae, 0x6ad473a4, 0x8509b392, 0x64519c8f), 0x00000000, 0x00000000,
            0x2744b59c, 0x311465e7, 0xede8844a, 0x1efcea31, 0x7e75188f, 0x5931ad13,
            0xc8e7f527, 0xeee9f58d, 0x481ba2a0, 0x481ba2a0, 0x297e0e98, 0x8dcfab27,
            0x0c44c3b6, 0x0c44c3b6, 0xf95e99a8, 0x02afb727, 0x9d2356a3);
    RoundsNext(10, BLOCK);
    RoundBy(11, Regs(0x481ba2a0, 0x59c2744b, 0xf95e99a8, 0x45592e20,
                     0x02afb727, 0xc6a3ceae, 0x9d2356a3, 0x8509b392), 0x00000000, 0x00000018,
            0xba2a0481, 0x6228cbce, 0xbcd9bba8, 0x1f028776, 0x8143bb0f, 0x3b69bf8e,
            0xe8874f43, 0x2de07d63, 0x694a3cf1, 0x694a3d09, 0x592f2f2a, 0xde38e2bc,
            0x5f7c9dcb, 0x5f7c9dcb, 0x84e896b3, 0x9dd1b58c, 0x7576351e);
    RoundsNext(11, BLOCK);
  }

  lemma After14()
    ensures |BLOCK| == 64 && Rounds(14, IV, BLOCK)
         == Regs(0x24c95abc, 0x89cbcd58, 0x947a12d2, 0x37454090,
                 0x1a4a2554, 0x6370db62, 0xac64ee8d, 0xb938157d)
  {
    BlockSize();
    hide Round, Rounds, Expanded, BLOCK;
    After12();
    FirstWords(); Words2();
    assert Xor(0x00000000, 0x9092e200) == 0x9092e200 && Xor(0x00000000, 0x00000000) == 0x00000000;
    RoundBy(12, Regs(0x694a3d09, 0x481ba2a0, 0x84e896b3, 0xf95e99a8,
                     0x9dd1b58c, 0x02afb727, 0x7576351e, 0x9d2356a3), 0x00000000, 0x9092e200,
            0xa3d09694, 0xc451979c, 0x41a24c20, 0x05f3e3bc, 0xf9f1de02, 0x5a214896,
            0xa5b9091a, 0x9f17a2c2, 0xf938eb58, 0x89cbcd58, 0xea0837b5, 0x872b8e58,
            0x811d6c5a, 0x811d6c5a, 0x37454090, 0x6370db62, 0xb938157d);
    RoundsNext(12, BLOCK);
    RoundBy(13, Regs(0x89cbcd58, 0x694a3d09, 0x37454090, 0x84e896b3,
                     0x6370db62, 0x9dd1b58c, 0xb938157d, 0x7576351e), 0x00000000, 0x00000000,
            0xbcd5889c, 0x88a32f39, 0x204663fe, 0xa8e99337, 0x74c99bd4, 0xc81c1348,
            0xd7c4b0c1, 0x5cad4774, 0x24c95abc, 0x24c95abc, 0x47997b93, 0xbd0fb0b1,
            0x31d94c85, 0x31d94c85, 0x947a12d2, 0x1a4a2554, 0xac64ee8d);
    RoundsNext(13, BLOCK);
  }

  lemma After16()
    ensures |BLOCK| == 64 && Rounds(16, IV, BLOCK)
         == Regs(0x34d1691e, 0x7c529778, 0x92b57849, 0x979ab113,
                 0x61f99646, 0x3ee95933, 0x2aa0d251, 0xdb131b86)
  {
    BlockSize();
    hide Round, Rounds, Expanded, BLOCK;
    After14();
    FirstWords(); Words2();
    assert Xor(0x00000000, 0x000c0606) == 0x000c0606 && Xor(0x00000018, 0x719c70ed) == 0x719c70f5;
    RoundBy(14, Regs(0x24c95abc, 0x89cbcd58, 0x947a12d2, 0x37454090,
                     0x1a4a2554, 0x6370db62, 0xac64ee8d, 0xb938157d), 0x00000000, 0x000c0606,
            0x95abc24c, 0x11465e73, 0xaff5e7a0, 0xc13c4613, 0x9e2309e0, 0x0b88cbac,
            0x39788536, 0x70bdc5c6, 0x7c469172, 0x7c529778, 0xd55e10bb, 0x8e962638,
            0x2cb93018, 0x2cb93018, 0x979ab113, 0x3ee95933, 0xdb131b86);
    RoundsNext(14, BLOCK);
    RoundBy(15, Regs(0x7c529778, 0x24c95abc, 0x979ab113, 0x947a12d2,
                     0x3ee95933, 0x1a4a2554, 0xdb131b86, 0xac64ee8d), 0x00000018, 0x719c70f5,
            0x297787c5, 0x228cbce6, 0x6860e0f8, 0x8aed9dde, 0x76ceef45, 0x5fb96880,
            0xcf017cd7, 0x637b8fa9, 0xc334f829, 0x34d1691e, 0xffb067e1, 0xac15566e,
            0x22e445b3, 0x22e445cb, 0x92b57849, 0x61f99646, 0x2aa0d251);
    RoundsNext(15, BLOCK);
  }

  lemma After18()
    ensures |BLOCK| == 64 && Rounds(18, IV, BLOCK)
         == Regs(0x7d27cc0e, 0x796afab1, 0xa2d23c69, 0xa52ef0f8,
                 0xb3c8669b, 0x067550f5, 0xb2330fcc, 0xc999f74a)
  {
    BlockSize();
    hide Round, Rounds, Expanded, BLOCK;
    After16();
    Words2();
    assert Xor(0x9092e200, 0x00000000) == 0x9092e200 && Xor(0x00000000, 0x8001801f) == 0x8001801f;
    RoundBy(16, Regs(0x34d1691e, 0x7c529778, 0x92b57849, 0x979ab113,
                     0x61f99646, 0x3ee95933, 0x2aa0d251, 0xdb131b86), 0x9092e200, 0x9092e200,
            0x1691e34d, 0x9d8a7a87, 0x788b7993, 0x1615f41a, 0x0afa0d0b, 0x1c6bee46,
            0x34d17958, 0xcc6c2a6b, 0xe8d818b1, 0x796afab1, 0x2ae95013, 0x05fc6b99,
            0x10f678a4, 0xa1895aa4, 0xa52ef0f8, 0x067550f5, 0xc999f74a);
    RoundsNext(16, BLOCK);
    RoundBy(17, Regs(0x796afab1, 0x34d1691e, 0xa52ef0f8, 0x92b57849,
                     0x067550f5, 0x61f99646, 0xc999f74a, 0x2aa0d251), 0x00000000, 0x8001801f,
            0xafab1796, 0x3b14f50f, 0xb620688b, 0xf1355d9a, 0x9aaecd78, 0x3505daee,
            0x356af8b8, 0xc8207101, 0xfd264bef, 0x7d27cc0e, 0xc9f9b74e, 0xf49a899f,
            0x8f495717, 0x8f495717, 0xa2d23c69, 0xb3c8669b, 0xb2330fcc);
    RoundsNext(17, BLOCK);
  }

  lemma After20()
    ensures |BLOCK| == 64 && Rounds(20, IV, BLOCK)
         == Regs(0xf84fd372, 0xd7820ad1, 0x4f981cfa, 0xd5f562f2,
                 0xa5dceaf1, 0x575c37d8, 0x34dd9e43, 0x87a833aa)
  {
    BlockSize();
    hide Round, Rounds, Expanded, BLOCK;
    After18();
    Words2();
    assert Xor(0x000c0606, 0x939f7da9) == 0x93937baf && Xor(0x719c70ed, 0x00000000) == 0x719c70ed;
    RoundBy(18, Regs(0x7d27cc0e, 0x796afab1, 0xa2d23c69, 0xa52ef0f8,
                     0xb3c8669b, 0x067550f5, 0xb2330fcc, 0xc999f74a), 0x000c0606, 0x93937baf,
            0x7cc0e7d2, 0x7629ea1e, 0x30894e6d, 0xa6b3388b, 0x599c45d3, 0x255ca201,
            0x7962fc29, 0x1e91ed21, 0x43ee8f22, 0xd7820ad1, 0x027349d5, 0xcc0d411f,
            0x25a986f2, 0x25b58cf8, 0xd5f562f2, 0x575c37d8, 0x87a833aa);
    RoundsNext(18, BLOCK);
    RoundBy(19, Regs(0xd7820ad1, 0x7d27cc0e, 0xd5f562f2, 0xa2d23c69,
                     0x575c37d8, 0xb3c8669b, 0x87a833aa, 0xb2330fcc), 0x719c70ed, 0x719c70ed,
            0x20ad1d78, 0xec53d43c, 0x78095550, 0x645d298c, 0x2e94c632, 0x0e39db4a,
            0xd5a74ad2, 0x7879873b, 0x86b36285, 0xf84fd372, 0x93e826ba, 0x461b3686,
            0x74affcb8, 0xe64c6da5, 0x4f981cfa, 0xa5dceaf1, 0x34dd9e43);
    RoundsNext(19, BLOCK);
  }

  lemma After22()
    ensures |BLOCK| == 64 && Rounds(22, IV, BLOCK)
         == Regs(0x4d0c2fcd, 0x02c57896, 0x9fa6e5f0, 0x0415a3af,
                 0x576f1d09, 0x74576681, 0x578d2ee7, 0xbec2bae1)
  {
    BlockSize();
    hide Round, Rounds, Expanded, BLOCK;
    After20();
    Words2(); Words3();
    assert Xor(0x00000000, 0x2c6fa1f9) == 0x2c6fa1f9 && Xor(0x8001801f, 0xadaaef14) == 0x2dab6f0b;
    RoundBy(20, Regs(0xf84fd372, 0xd7820ad1, 0x4f981cfa, 0xd5f562f2,
                     0xa5dceaf1, 0x575c37d8, 0x34dd9e43, 0x87a833aa), 0x00000000, 0x2c6fa1f9,
            0xfd372f84, 0xd8a7a879, 0xa3141a75, 0x7bbbc2ee, 0xdde1773d, 0x20d658b9,
            0xdf8a1af2, 0xb57f7de4, 0xd655d69d, 0x02c57896, 0x155d36d2, 0x9d056a7c,
            0x7ae6e1b9, 0x7ae6e1b9, 0x0415a3af, 0x74576681, 0xbec2bae1);
    RoundsNext(20, BLOCK);
    RoundBy(21, Regs(0x02c57896, 0xf84fd372, 0x0415a3af, 0x4f981cfa,
                     0x74576681, 0xa5dceaf1, 0xbec2bae1, 0x34dd9e43), 0x8001801f, 0x2dab6f0b,
            0x5789602c, 0xb14f50f3, 0xcbe0c6ad, 0x7d3017a0, 0x980bd03e, 0xcf82b012,
            0x0045f3b6, 0x4fde10b0, 0x1f60c0c2, 0x4d0c2fcd, 0xaed4fae1, 0xe3b29924,
            0x7bbe6962, 0xfbbfe981, 0x9fa6e5f0, 0x576f1d09, 0x578d2ee7);
    RoundsNext(21, BLOCK);
  }

  lemma After24()
    ensures |BLOCK| == 64 && Rounds(24, IV, BLOCK)
         == Regs(0xf368da78, 0xeeeec41a, 0x185f9a9a, 0x8af12c05,
                 0x6a879032, 0xb5523911, 0xe84abb78, 0x340ba2bb)
  {
    BlockSize();
    hide Round, Rounds, Expanded, BLOCK;
    After22();
    Words2(); Words3();
    assert Xor(0x939f7da9, 0x00000000) == 0x939f7da9 && Xor(0x00000000, 0x0001801e) == 0x0001801e;
    RoundBy(22, Regs(0x4d0c2fcd, 0x02c57896, 0x9fa6e5f0, 0x0415a3af,
                     0x576f1d09, 0x74576681, 0x578d2ee7, 0xbec2bae1), 0x939f7da9, 0x939f7da9,
            0xc2fcd4d0, 0x629ea1e7, 0x1a6bf1d9, 0x7d0a93c0, 0x8549e03e, 0x47b534ee,
            0x0f846dd4, 0x139a1183, 0x5b4f4671, 0xeeeec41a, 0x54c726e7, 0x1389e1c8,
            0x98d3c206, 0x2c733faf, 0x8af12c05, 0xb5523911, 0x340ba2bb);
    RoundsNext(22, BLOCK);
    RoundBy(23, Regs(0xeeeec41a, 0x4d0c2fcd, 0x8af12c05, 0x9fa6e5f0,
                     0xb5523911, 0x576f1d09, 0x340ba2bb, 0x578d2ee7), 0x00000000, 0x0001801e,
            0xec41aeee, 0xc53d43ce, 0xa193e7ff, 0x66d12bcd, 0x6895e6b3, 0x84d4485d,
            0xceec2c0d, 0x6e9311fd, 0xf3675a5a, 0xf368da78, 0x154b9bab, 0x6cd8ca92,
            0xd56eb145, 0xd56eb145, 0x185f9a9a, 0x6a879032, 0xe84abb78);
    RoundsNext(23, BLOCK);
  }

  lemma After26()
    ensures |BLOCK| == 64 && Rounds(26, IV, BLOCK)
         == Regs(0xc3fd31c2, 0x15ce1286, 0xd1b4f1e6, 0xdd8835dd,
                 0x4db58f43, 0x62063354, 0x8193543c, 0xc88daa91)
  {
    BlockSize();
    hide Round, Rounds, Expanded, BLOCK;
    After24();
    Words3();
    assert Xor(0x2c6fa1f9, 0x9a965f89) == 0xb6f9fe70 && Xor(0xadaaef14, 0x49710048) == 0xe4dbef5c;
    RoundBy(24, Regs(0xf368da78, 0xeeeec41a, 0x185f9a9a, 0x8af12c05,
                     0x6a879032, 0xb5523911, 0xe84abb78, 0x340ba2bb), 0x2c6fa1f9, 0xb6f9fe70,
            0x8da78f36, 0x8a7a879d, 0xf82f1f68, 0x82a9a705, 0x54d382c1, 0xd9740df7,
            0xfa6eda1a, 0x8560061f, 0x5ed41416, 0x15ce1286, 0xa04a3b58, 0xd455de13,
            0x292960d4, 0x559902cd, 0xdd8835dd, 0x62063354, 0xc88daa91);
    RoundsNext(24, BLOCK);
    RoundBy(25, Regs(0x15ce1286, 0xf368da78, 0xdd8835dd, 0x185f9a9a,
                     0x62063354, 0x6a879032, 0xc88daa91, 0xe84abb78), 0xadaaef14, 0xe4dbef5c,
            0xe128615c, 0x14f50f3b, 0x432e94b0, 0x5823a3eb, 0x11d1f5ac, 0xf0f994f0,
            0xd5c812dc, 0xee27ad76, 0xdf214266, 0xc3fd31c2, 0xea8f9891, 0xd2da5409,
            0xe4ac49b5, 0x925738c9, 0xd1b4f1e6, 0x4db58f43, 0x8193543c);
    RoundsNext(25, BLOCK);
  }

  lemma After28()
    ensures |BLOCK| == 64 && Rounds(28, IV, BLOCK)
         == Regs(0xa549beaa, 0x6243be5e, 0xfa638587, 0x9c250c2b,
                 0xcf65e309, 0x131152fe, 0x7a1a6dac, 0x9aa31031)
  {
    BlockSize();
    hide Round, Rounds, Expanded, BLOCK;
    After26();
    Words3();
    assert Xor(0x00000000, 0x23ce86a1) == 0x23ce86a1 && Xor(0x0001801e, 0xb2d12f1b) == 0xb2d0af05;
    RoundBy(26, Regs(0xc3fd31c2, 0x15ce1286, 0xd1b4f1e6, 0xdd8835dd,
                     0x4db58f43, 0x62063354, 0x8193543c, 0xc88daa91), 0x00000000, 0x23ce86a1,
            0xd31c2c3f, 0x29ea1e76, 0x20d1bb82, 0x4abbd9f8, 0x5decfc25, 0x8ef0d01a,
            0xd1fc31c6, 0xaf8467a3, 0x3e7537bd, 0x6243be5e, 0xc006537c, 0x8893fe0d,
            0xe680fa32, 0xe680fa32, 0x9c250c2b, 0x131152fe, 0x9aa31031);
    RoundsNext(26, BLOCK);
    RoundBy(27, Regs(0x6243be5e, 0xc3fd31c2, 0x9c250c2b, 0xd1b4f1e6,
                     0x131152fe, 0x4db58f43, 0x9aa31031, 0x8193543c), 0x0001801e, 0xb2d0af05,
            0x3be5e624, 0x53d43cec, 0x4ef73922, 0xa2cb760e, 0x65bb0751, 0x5e5ee175,
            0xc2653c4a, 0x941a2e30, 0xf2790fa5, 0xa549beaa, 0x89b30243, 0x0b46567f,
            0x71015dd0, 0x7102ddee, 0xfa638587, 0xcf65e309, 0x7a1a6dac);
    RoundsNext(27, BLOCK);
  }

  lemma After30()
    ensures |BLOCK| == 64 && Rounds(30, IV, BLOCK)
         == Regs(0xff9bac9d, 0xe11eb847, 0x937d554a, 0x877cbcc4,
                 0x9811b46d, 0xe5b64e96, 0x184e7b2f, 0x97f0988a)
  {
    BlockSize();
    hide Round, Rounds, Expanded, BLOCK;
    After28();
    Words3(); Words4();
    assert Xor(0x9a965f89, 0xe1dae338) == 0x7b4cbcb1 && Xor(0x49710048, 0xf8061807) == 0xb177184f;
    RoundBy(28, Regs(0xa549beaa, 0x6243be5e, 0xfa638587, 0x9c250c2b,
                     0xcf65e309, 0x131152fe, 0x7a1a6dac, 0x9aa31031), 0x9a965f89, 0x7b4cbcb1,
            0x9beaaa54, 0xa7a879d8, 0x6b508d5d, 0x12f90735, 0x7c839a89, 0xe76930dd,
            0xe243be8e, 0x7e68cab9, 0x65d1fb96, 0xe11eb847, 0x331b4eac, 0xcdbe5edd,
            0x4a41f966, 0xe4d858ef, 0x877cbcc4, 0xe5b64e96, 0x97f0988a);
    RoundsNext(28, BLOCK);
    RoundBy(29, Regs(0xe11eb847, 0xa549beaa, 0x877cbcc4, 0xfa638587,
                     0xe5b64e96, 0xcf65e309, 0x97f0988a, 0x7a1a6dac), 0x49710048, 0xb177184f,
            0xeb847e11, 0x4f50f3b1, 0xd13acca7, 0x208bc058, 0x45e02c10, 0xae645201,
            0xa55cbcc6, 0x9fc0424d, 0x4e24944e, 0xff9bac9d, 0xd764d208, 0x517f3fb4,
            0x975f6bc4, 0xe0d06c0c, 0x937d554a, 0x9811b46d, 0x184e7b2f);
    RoundsNext(29, BLOCK);
  }

  lemma After32()
    ensures |BLOCK| == 64 && Rounds(32, IV, BLOCK)
         == Regs(0x89a13e59, 0xa5a4a2b3, 0x37593bff, 0x3d708fc2,
                 0x0a1ff572, 0xe92df4ea, 0xa36cc08d, 0x74b72db2)
  {
    BlockSize();
    hide Round, Rounds, Expanded, BLOCK;
    After30();
    Words3(); Words4();
    assert Xor(0x23ce86a1, 0x055d68be) == 0x2693ee1f && Xor(0xb2d12f1b, 0x86cfd481) == 0x341efb9a;
    RoundBy(30, Regs(0xff9bac9d, 0xe11eb847, 0x937d554a, 0x877cbcc4,
                     0x9811b46d, 0xe5b64e96, 0x184e7b2f, 0x97f0988a), 0x23ce86a1, 0x2693ee1f,
            0xbac9dff9, 0x9ea1e762, 0x52db9466, 0xf17d7bc8, 0xbebde478, 0x04743b81,
            0xf31fbc4f, 0x7a9c7913, 0x7f10b494, 0xa5a4a2b3, 0x805e4f06, 0x184ee790,
            0xd70ccc08, 0xfadb52a9, 0x3d708fc2, 0xe92df4ea, 0x74b72db2);
    RoundsNext(30, BLOCK);
    RoundBy(31, Regs(0xa5a4a2b3, 0xff9bac9d, 0x3d708fc2, 0x937d554a,
                     0xe92df4ea, 0x9811b46d, 0x74b72db2, 0x184e7b2f), 0xb2d12f1b, 0x341efb9a,
            0x4a2b3a5a, 0x3d43cec5, 0x33592f44, 0x709cfe09, 0x4e7f04b8, 0x04543ee2,
            0xbdb0ae93, 0x512e03dd, 0x558242bf, 0x89a13e59, 0x9c93bd78, 0xb4e238a7,
            0x03613d5f, 0xb6326c7a, 0x37593bff, 0x0a1ff572, 0xa36cc08d);
    RoundsNext(31, BLOCK);
  }

  lemma After34()
    ensures |BLOCK| == 64 && Rounds(34, IV, BLOCK)
         == Regs(0x9ccd089c, 0x3720bd4e, 0x427cb313, 0x4945674b,
                 0xda8c835f, 0xcf7d1683, 0xab9050ff, 0xa757496f)
  {
    BlockSize();
    hide Round, Rounds, Expanded, BLOCK;
    After32();
    Words4();
    assert Xor(0xe1dae338, 0x1f447d83) == 0xfe9e9ebb && Xor(0xf8061807, 0xd9023dbf) == 0x210425b8;
    RoundBy(32, Regs(0x89a13e59, 0xa5a4a2b3, 0x37593bff, 0x3d708fc2,
                     0x0a1ff572, 0xe92df4ea, 0xa36cc08d, 0x74b72db2), 0xe1dae338, 0xfe9e9ebb,
            0x13e5989a, 0x7a879d8a, 0x1e058e0c, 0x988d2b96, 0x4695cb4c, 0x557053d6,
            0xa5a13afb, 0xe311cabd, 0x38821e93, 0x3720bd4e, 0xa96df4ef, 0x1e2522a1,
            0x64baeded, 0x4695d125, 0x4945674b, 0xcf7d1683, 0xa757496f);
    RoundsNext(32, BLOCK);
    RoundBy(33, Regs(0x3720bd4e, 0x89a13e59, 0x4945674b, 0x37593bff,
                     0xcf7d1683, 0x0a1ff572, 0xa757496f, 0xa36cc08d), 0xf8061807, 0x210425b8,
            0x0bd4e372, 0xf50f3b14, 0xdb51f9f5, 0xd0613509, 0x309a84e8, 0x3b4e679a,
            0x09213f4b, 0x407a7b4a, 0x7bc8e2e4, 0x9ccd089c, 0x2a1f5d6e, 0xcd8c1dfb,
            0xfe26a2e3, 0xf62cbaea, 0x427cb313, 0xda8c835f, 0xab9050ff);
    RoundsNext(33, BLOCK);
  }

  lemma After36()
    ensures |BLOCK| == 64 && Rounds(36, IV, BLOCK)
         == Regs(0xd955c3ed, 0xc7a0744d, 0x9a113939, 0x417a9c6e,
                 0xc533f0ff, 0x0958ff1b, 0x1afed464, 0xb41e7be8)
  {
    BlockSize();
    hide Round, Rounds, Expanded, BLOCK;
    After34();
    Words4();
    assert Xor(0x055d68be, 0x185898e0) == 0x1d05f05e && Xor(0x86cfd481, 0xe0061807) == 0x66c9cc86;
    RoundBy(34, Regs(0x9ccd089c, 0x3720bd4e, 0x427cb313, 0x4945674b,
                     0xda8c835f, 0xcf7d1683, 0xab9050ff, 0xa757496f), 0x055d68be, 0x1d05f05e,
            0xd089c9cc, 0xea1e7629, 0xab164d2b, 0x9534c354, 0x9a61aa4a, 0x4ae86386,
            0x166cb91e, 0x5fb22069, 0xaa9a83ef, 0xc7a0744d, 0xeb1c52a3, 0x92739c12,
            0x2cd5465c, 0x3232af1a, 0x417a9c6e, 0x0958ff1b, 0xb41e7be8);
    RoundsNext(34, BLOCK);
    RoundBy(35, Regs(0xc7a0744d, 0x9ccd089c, 0x417a9c6e, 0x427cb313,
                     0x0958ff1b, 0xda8c835f, 0xb41e7be8, 0xab9050ff), 0x86cfd481, 0x66c9cc86,
            0x0744dc7a, 0xd43cec53, 0x109ddb95, 0xe4dac7e8, 0x6d63f472, 0x6a272808,
            0xc5e81c4c, 0x0864cf5f, 0x728bf767, 0xd955c3ed, 0xbc0e83fb, 0x679ed4fa,
            0xd502c96c, 0x5bd29ded, 0x9a113939, 0xc533f0ff, 0x1afed464);
    RoundsNext(35, BLOCK);
  }

  lemma After38()
    ensures |BLOCK| == 64 && Rounds(38, IV, BLOCK)
         == Regs(0xe7250598, 0xe142d72b, 0xab87dbb2, 0x40e89b8f,
                 0xc7f93fd3, 0xd4509586, 0x87fe299f, 0xf8d84ac7)
  {
    BlockSize();
    hide Round, Rounds, Expanded, BLOCK;
    After36();
    Words4(); Words5();
    assert Xor(0x1f447d83, 0x050df55c) == 0x1a4988df && Xor(0xd9023dbf, 0xcde0104c) == 0x14e22df3;
    RoundBy(36, Regs(0xd955c3ed, 0xc7a0744d, 0x9a113939, 0x417a9c6e,
                     0xc533f0ff, 0x0958ff1b, 0x1afed464, 0xb41e7be8), 0x1f447d83, 0x1a4988df,
            0x5c3edd95, 0xa879d8a7, 0x2172ce94, 0xc9eca73b, 0xf6539de4, 0xaa6d4071,
            0xdb11716d, 0x1c8c0ddb, 0xc6f94e4c, 0xe142d72b, 0x1bdcf41b, 0xcffb7003,
            0xc64f0de7, 0xe5938b6a, 0x40e89b8f, 0xd4509586, 0xf8d84ac7);
    RoundsNext(36, BLOCK);
    RoundBy(37, Regs(0xe142d72b, 0xd955c3ed, 0x40e89b8f, 0x9a113939,
                     0xd4509586, 0xc533f0ff, 0xf8d84ac7, 0x1afed464), 0xd9023dbf, 0x14e22df3,
            0x2d72be14, 0x50f3b14f, 0x01c3539a, 0x52b704e9, 0x5b8274a9, 0x76f0cabd,
            0xc140d3af, 0x5b520ce8, 0xd242d7a5, 0xe7250598, 0xec98dac7, 0x0797af2b,
            0x631a23d4, 0x3c1c6193, 0xab87dbb2, 0xc7f93fd3, 0x87fe299f);
    RoundsNext(37, BLOCK);
  }

  lemma After40()
    ensures |BLOCK| == 64 && Rounds(40, IV, BLOCK)
         == Regs(0x19f363f9, 0x2f13c4ad, 0x4a0b31ce, 0x85ae57c2,
                 0xc302badb, 0x1a6cabc9, 0xfe9e3fc9, 0xac36a284)
  {
    BlockSize();
    hide Round, Rounds, Expanded, BLOCK;
    After38();
    Words4(); Words5();
    assert Xor(0x185898e0, 0xa5b9c955) == 0xbde151b5 && Xor(0xe0061807, 0xa7df0184) == 0x47d91983;
    RoundBy(38, Regs(0xe7250598, 0xe142d72b, 0xab87dbb2, 0x40e89b8f,
                     0xc7f93fd3, 0xd4509586, 0x87fe299f, 0xf8d84ac7), 0x185898e0, 0xbde151b5,
            0x50598e72, 0xa1e7629e, 0x1852ce45, 0xba3a30e3, 0x1d1871dd, 0x4d41ffaf,
            0xe307d7ba, 0x23f07349, 0x713272f8, 0x2f13c4ad, 0xc456158e, 0xbd2e6055,
            0xda46d232, 0xf29f6b12, 0x85ae57c2, 0x1a6cabc9, 0xac36a284);
    RoundsNext(38, BLOCK);
    RoundBy(39, Regs(0x2f13c4ad, 0xe7250598, 0x85ae57c2, 0xab87dbb2,
                     0x1a6cabc9, 0xc7f93fd3, 0xac36a284, 0x87fe299f), 0xe0061807, 0x47d91983,
            0x3c4ad2f1, 0x43cec53d, 0x56b77eba, 0x9a8643f7, 0x4321fbcd, 0x7f6b293c,
            0xa7274588, 0x52af213a, 0xd21a4a76, 0x19f363f9, 0xa67a2bc5, 0x2e785564,
            0x719a5131, 0x51a06938, 0x4a0b31ce, 0xc302badb, 0xfe9e3fc9);
    RoundsNext(39, BLOCK);
  }

  lemma After42()
    ensures |BLOCK| == 64 && Rounds(42, IV, BLOCK)
         == Regs(0xd4f4efe3, 0x55e1dde2, 0xe6c7f233, 0x27895a5e,
                 0x5cfba85a, 0x459daccf, 0xd6de1815, 0x5e48d365)
  {
    BlockSize();
    hide Round, Rounds, Expanded, BLOCK;
    After40();
    Words5();
    assert Xor(0x050df55c, 0x6e46cd08) == 0x6b4b3854 && Xor(0xcde0104c, 0xe3babdf8) == 0x2e5aadb4;
    RoundBy(40, Regs(0x19f363f9, 0x2f13c4ad, 0x4a0b31ce, 0x85ae57c2,
                     0xc302badb, 0x1a6cabc9, 0xfe9e3fc9, 0xac36a284), 0x050df55c, 0x6b4b3854,
            0x363f919f, 0x879d8a7a, 0xf9424c7a, 0x80dfd6f4, 0x6feb7a40, 0x59d4ebdf,
            0x0b1361ed, 0x90c1b9af, 0xea96a58e, 0x55e1dde2, 0x3e9cafc9, 0xead3524d,
            0x5abecc8d, 0x5fccc1e9, 0x27895a5e, 0x459daccf, 0x5e48d365);
    RoundsNext(40, BLOCK);
    RoundBy(41, Regs(0x55e1dde2, 0x19f363f9, 0x27895a5e, 0x4a0b31ce,
                     0x459daccf, 0xc302badb, 0x5e48d365, 0xfe9e3fc9), 0xcde0104c, 0x2e5aadb4,
            0x1dde255e, 0x0f3b14f5, 0x637bd22d, 0x72b6e722, 0x5b739139, 0x46adb467,
            0x15e15bfa, 0x5fec8dc8, 0xa69a422f, 0xd4f4efe3, 0x5b40fbeb, 0x59df3bb4,
            0xb552cced, 0x8332dd39, 0xe6c7f233, 0x5cfba85a, 0xd6de1815);
    RoundsNext(41, BLOCK);
  }

  lemma After44()
    ensures |BLOCK| == 64 && Rounds(44, IV, BLOCK)
         == Regs(0x8237b8a0, 0x48dcbc62, 0xe9dfc7a9, 0xc3bbc4ab,
                 0xd89d2711, 0x6f49c7bb, 0x42d2e7dd, 0x667a2ced)
  {
    BlockSize();
    hide Round, Rounds, Expanded, BLOCK;
    After42();
    Words5();
    assert Xor(0xa5b9c955, 0x70caa422) == 0xd5736d77 && Xor(0xa7df0184, 0x0353af50) == 0xa48caed4;
    RoundBy(42, Regs(0xd4f4efe3, 0x55e1dde2, 0xe6c7f233, 0x27895a5e,
                     0x5cfba85a, 0x459daccf, 0xd6de1815, 0x5e48d365), 0xa5b9c955, 0xd5736d77,
            0x4efe3d4f, 0x1e7629ea, 0xabf9e5a9, 0xca700f93, 0x3807c9e5, 0x76f9f4aa,
            0xd4e5ffe3, 0xfc6f5a41, 0x73694eeb, 0x48dcbc62, 0xc69db84f, 0x24e68bb4,
            0x5cee5599, 0x02a81eee, 0xc3bbc4ab, 0x6f49c7bb, 0x667a2ced);
    RoundsNext(42, BLOCK);
    RoundBy(43, Regs(0x48dcbc62, 0xd4f4efe3, 0xc3bbc4ab, 0xe6c7f233,
                     0x6f49c7bb, 0x5cfba85a, 0x667a2ced, 0xd6de1815), 0xa7df0184, 0xa48caed4,
            0xcbc6248d, 0x3cec53d4, 0x3b0fec48, 0x77fc401c, 0xfe200e3b, 0x35e62ab6,
            0xc0fcece3, 0xa7c4df16, 0xddab09cc, 0x8237b8a0, 0x4c7ba85e, 0x2359c073,
            0x2179ceae, 0xc958d032, 0xe9dfc7a9, 0xd89d2711, 0x42d2e7dd);
    RoundsNext(43, BLOCK);
  }

  lemma After46()
    ensures |BLOCK| == 64 && Rounds(46, IV, BLOCK)
         == Regs(0xd2090a86, 0xd8685939, 0x6f714104, 0xb978c491,
                 0x2e533625, 0x8ee87df5, 0x388ec4e9, 0x3ddb7a4e)
  {
    BlockSize();
    hide Round, Rounds, Expanded, BLOCK;
    After44();
    Words5(); Words6();
    assert Xor(0x6e46cd08, 0xa92dbca1) == 0xc76b71a9 && Xor(0xe3babdf8, 0x5f33cfd2) == 0xbc89722a;
    RoundBy(44, Regs(0x8237b8a0, 0x48dcbc62, 0xe9dfc7a9, 0xc3bbc4ab,
                     0xd89d2711, 0x6f49c7bb, 0x42d2e7dd, 0x667a2ced), 0x6e46cd08, 0xc76b71a9,
            0x7b8a0823, 0x79d8a7a8, 0x54272f34, 0xcdffd6dc, 0xffeb6e66, 0x84616645,
            0xc8dfbca0, 0x8c9b814b, 0x10fce790, 0xd8685939, 0x4a4bc7dd, 0xb0c5f4ca,
            0xb0b16330, 0x1ef83038, 0xb978c491, 0x8ee87df5, 0x3ddb7a4e);
    RoundsNext(44, BLOCK);
    RoundBy(45, Regs(0xd8685939, 0x8237b8a0, 0xb978c491, 0xe9dfc7a9,
                     0x8ee87df5, 0xd89d2711, 0x3ddb7a4e, 0x42d2e7dd), 0xe3babdf8, 0xbc89722a,
            0x85939d86, 0xf3b14f50, 0x147c1b7b, 0x082d6acb, 0x16b56584, 0x9326f802,
            0x9878d8b1, 0x8258a05a, 0x157f985c, 0xd2090a86, 0xb99b271b, 0xfc6e0ef8,
            0x1323747c, 0xf6de3274, 0x6f714104, 0x2e533625, 0x388ec4e9);
    RoundsNext(45, BLOCK);
  }

  lemma After48()
    ensures |BLOCK| == 64 && Rounds(48, IV, BLOCK)
         == Regs(0x47c5be50, 0xe51076b3, 0x12150da4, 0xd0b273b0,
                 0x3567734e, 0xd9f89e61, 0xb1297299, 0xefac7743)
  {
    BlockSize();
    hide Round, Rounds, Expanded, BLOCK;
    After46();
    Words5(); Words6();
    assert Xor(0x70caa422, 0xe16f6e89) == 0x91a5caab && Xor(0x0353af50, 0xf70fe941) == 0xf45c4611;
    RoundBy(46, Regs(0xd2090a86, 0xd8685939, 0x6f714104, 0xb978c491,
                     0x2e533625, 0x8ee87df5, 0x388ec4e9, 0x3ddb7a4e), 0x70caa422, 0x91a5caab,
            0x90a86d20, 0xe7629ea1, 0xbefba345, 0xa65e41e6, 0x2f20f353, 0xbf889e73,
            0xda694904, 0x93e20d95, 0x536aac08, 0xe51076b3, 0x1eccf4ed, 0x5ca86f3b,
            0x8bc9628e, 0xfc9406b0, 0xd0b273b0, 0xd9f89e61, 0xefac7743);
    RoundsNext(46, BLOCK);
    RoundBy(47, Regs(0xe51076b3, 0xd2090a86, 0xd0b273b0, 0x6f714104,
                     0xd9f89e61, 0x2e533625, 0xefac7743, 0x388ec4e9), 0x0353af50, 0xf45c4611,
            0x076b3e51, 0xcec53d43, 0xe163dcb2, 0xb02919f5, 0x148cfad8, 0x13e7c489,
            0xd01072b2, 0x3f81b3b6, 0x5369783f, 0x47c5be50, 0x2e547723, 0x66e33c0c,
            0x7b7036e4, 0x7ec3e634, 0x12150da4, 0x3567734e, 0xb1297299);
    RoundsNext(47, BLOCK);
  }

  lemma After50()
    ensures |BLOCK| == 64 && Rounds(50, IV, BLOCK)
         == Regs(0xbd708003, 0xabddbdc8, 0x8b7ca08f, 0x20ed67ca,
                 0x93494bc0, 0x3dfcdd11, 0x9a71ab3b, 0xf30ecfc4)
  {
    BlockSize();
    hide Round, Rounds, Expanded, BLOCK;
    After48();
    Words6();
    assert Xor(0xa92dbca1, 0xca5462dc) == 0x6379de7d && Xor(0x5f33cfd2, 0x85a90152) == 0xda9ace80;
    RoundBy(48, Regs(0x47c5be50, 0xe51076b3, 0x12150da4, 0xd0b273b0,
                     0x3567734e, 0xd9f89e61, 0xb1297299, 0xefac7743), 0xa92dbca1, 0x6379de7d,
            0x5be5047c, 0x9d8a7a87, 0x914c77ca, 0x2ed6f251, 0x6b792897, 0x309c2ceb,
            0x47153eb0, 0x17c7b260, 0x4863df4b, 0xabddbdc8, 0x916812d1, 0x81148a14,
            0xec8db2ab, 0x95bb6f4c, 0x20ed67ca, 0x3dfcdd11, 0xf30ecfc4);
    RoundsNext(48, BLOCK);
    RoundBy(49, Regs(0xabddbdc8, 0x47c5be50, 0x20ed67ca, 0x12150da4,
                     0x3dfcdd11, 0x3567734e, 0xf30ecfc4, 0xb1297299), 0x5f33cfd2, 0xda9ace80,
            0xdbdc8abd, 0x3b14f50f, 0x19d967ce, 0x54ee5cdd, 0x772e6eaa, 0xacf2e417,
            0x23cdbfc8, 0x35e2cd6c, 0xe2d5b183, 0xbd708003, 0xf76653c4, 0xa88fc65d,
            0x1fbe3507, 0x7ef204d9, 0x8b7ca08f, 0x93494bc0, 0x9a71ab3b);
    RoundsNext(49, BLOCK);
  }

  lemma After52()
    ensures |BLOCK| == 64 && Rounds(52, IV, BLOCK)
         == Regs(0x13826486, 0x15e2f5d3, 0xe100077a, 0xbb7b9157,
                 0xcd09a51c, 0xc3956c3f, 0x5e049a4a, 0xe889efe6)
  {
    BlockSize();
    hide Round, Rounds, Expanded, BLOCK;
    After50();
    Words6();
    assert Xor(0xe16f6e89, 0x76af6296) == 0x97c00c1f && Xor(0xf70fe941, 0xc922bdb2) == 0x3e2d54f3;
    RoundBy(50, Regs(0xbd708003, 0xabddbdc8, 0x8b7ca08f, 0x20ed67ca,
                     0x93494bc0, 0x3dfcdd11, 0x9a71ab3b, 0xf30ecfc4), 0xe16f6e89, 0x97c00c1f,
            0x08003bd7, 0x7629ea1e, 0x9b498797, 0x117371b5, 0xb9b8da88, 0xb1b8e15f,
            0xab7ca08b, 0xcc6a0855, 0x7e22e9b4, 0x15e2f5d3, 0x1978e93b, 0x0c87b8ff,
            0xc6409387, 0xa7b00210, 0xbb7b9157, 0xc3956c3f, 0xe889efe6);
    RoundsNext(50, BLOCK);
    RoundBy(51, Regs(0x15e2f5d3, 0xbd708003, 0xbb7b9157, 0x8b7ca08f,
                     0xc3956c3f, 0x93494bc0, 0xe889efe6, 0x9a71ab3b), 0xf70fe941, 0x3e2d54f3,
            0x2f5d315e, 0xec53d43c, 0xf2f29d9d, 0xdf4671d9, 0xa338ecef, 0x8c65ddb1,
            0xbd729153, 0x48ef31e2, 0xd5550f93, 0x13826486, 0xab09cbc0, 0x457b76fb,
            0xe8b463ea, 0xdfc44d2b, 0xe100077a, 0xcd09a51c, 0x5e049a4a);
    RoundsNext(51, BLOCK);
  }

  lemma After54()
    ensures |BLOCK| == 64 && Rounds(54, IV, BLOCK)
         == Regs(0xf4412e82, 0x4a00ed2f, 0x04c90c27, 0xc5eba62b,
                 0x7429807c, 0x0741f675, 0x28e6684d, 0x61fe1cab)
  {
    BlockSize();
    hide Round, Rounds, Expanded, BLOCK;
    After52();
    Words6(); Words7();
    assert Xor(0xca5462dc, 0x68378cf5) == 0xa263ee29 && Xor(0x85a90152, 0x97585344) == 0x12f15216;
    RoundBy(52, Regs(0x13826486, 0x15e2f5d3, 0xe100077a, 0xbb7b9157,
                     0xcd09a51c, 0xc3956c3f, 0x5e049a4a, 0xe889efe6), 0xca5462dc, 0xa263ee29,
            0x26486138, 0xd8a7a879, 0xf3520654, 0xcbf9aecd, 0xfcd766e5, 0xda9f07dd,
            0x118265d2, 0xccfdf729, 0xa79cff06, 0x4a00ed2f, 0xd3053e5e, 0xbb8f2e44,
            0xb8669529, 0x82baf805, 0xc5eba62b, 0x0741f675, 0x61fe1cab);
    RoundsNext(52, BLOCK);
    RoundBy(53, Regs(0x4a00ed2f, 0x13826486, 0xc5eba62b, 0xe100077a,
                     0x0741f675, 0xcd09a51c, 0x61fe1cab, 0x5e049a4a), 0x85a90152, 0x12f15216,
            0x0ed2f4a0, 0xb14f50f3, 0x1614eb15, 0xc7643c08, 0xb21e0463, 0xbcccf0c3,
            0x4382e42f, 0x2482eba9, 0xe14fdc6c, 0xf4412e82, 0x65bfac9e, 0xc3c446e8,
            0x75e24b4b, 0xfb8b4c9d, 0x04c90c27, 0x7429807c, 0x28e6684d);
    RoundsNext(53, BLOCK);
  }

  lemma After56()
    ensures |BLOCK| == 64 && Rounds(56, IV, BLOCK)
         == Regs(0x22a79585, 0x549db4b7, 0x825d05e8, 0x01da5e94,
                 0x9d4db19a, 0xf6bc15ed, 0x03e3a14c, 0xb3a83a0f)
  {
    BlockSize();
    hide Round, Rounds, Expanded, BLOCK;
    After54();
    Words6(); Words7();
    assert Xor(0x76af6296, 0x09008723) == 0x7fafe5b5 && Xor(0xc922bdb2, 0x86faee74) == 0x4fd853c6;
    RoundBy(54, Regs(0xf4412e82, 0x4a00ed2f, 0x04c90c27, 0xc5eba62b,
                     0x7429807c, 0x0741f675, 0x28e6684d, 0x61fe1cab), 0x76af6296, 0x7fafe5b5,
            0x12e82f44, 0x629ea1e7, 0x8711afc0, 0xe9b051a7, 0xd828d3f4, 0xcac0fcb0,
            0x44412c27, 0x0a2cd252, 0xd4edcf02, 0x549db4b7, 0x0cc7e875, 0x6ec60520,
            0x46eed914, 0xbd9e3baa, 0x01da5e94, 0xf6bc15ed, 0xb3a83a0f);
    RoundsNext(54, BLOCK);
    RoundBy(55, Regs(0x549db4b7, 0xf4412e82, 0x01da5e94, 0x04c90c27,
                     0xf6bc15ed, 0x7429807c, 0xb3a83a0f, 0x28e6684d), 0xc922bdb2, 0x4fd853c6,
            0xdb4b7549, 0xc53d43ce, 0xd2078b36, 0x9744cf04, 0xa267824b, 0x792cf702,
            0x54d93e96, 0x59a24abd, 0xd2cf41bf, 0x22a79585, 0x75282a6e, 0x9e0e92bb,
            0x40761506, 0x0998d2b8, 0x825d05e8, 0x9d4db19a, 0x03e3a14c);
    RoundsNext(55, BLOCK);
  }

  lemma After58()
    ensures |BLOCK| == 64 && Rounds(58, IV, BLOCK)
         == Regs(0x6598314f, 0x30245b78, 0x4f2b0a45, 0x3b696ea9,
                 0xf522adb2, 0xf6804c82, 0x8cd4ea6d, 0xaf6fb5e0)
  {
    BlockSize();
    hide Round, Rounds, Expanded, BLOCK;
    After56();
    Words7();
    assert Xor(0x68378cf5, 0x2ab908b0) == 0x428e8445 && Xor(0x97585344, 0x4a64bc50) == 0xdd3cef14;
    RoundBy(56, Regs(0x22a79585, 0x549db4b7, 0x825d05e8, 0x01da5e94,
                     0x9d4db19a, 0xf6bc15ed, 0x03e3a14c, 0xb3a83a0f), 0x68378cf5, 0x428e8445,
            0x7958522a, 0x8a7a879d, 0x16a603c4, 0xa1208b61, 0x9045b0d0, 0xe91de2fa,
            0x029d95a5, 0x0477f439, 0xed95d733, 0x30245b78, 0x96ae11cc, 0x4a564bdb,
            0xda9bfcab, 0x42d389a0, 0x3b696ea9, 0xf6804c82, 0xaf6fb5e0);
    RoundsNext(56, BLOCK);
    RoundBy(57, Regs(0x30245b78, 0x22a79585, 0x3b696ea9, 0x825d05e8,
                     0xf6804c82, 0x9d4db19a, 0xaf6fb5e0, 0x03e3a14c), 0x97585344, 0xdd3cef14,
            0x45b78302, 0x14f50f3b, 0x3c37cf84, 0x512cdebf, 0x966f5fa8, 0xd3d8dcaa,
            0x32255fa9, 0xb4826591, 0x885b423b, 0x6598314f, 0x9d6fb1e2, 0xa153532e,
            0x37c2b2d6, 0xcf1b061a, 0x4f2b0a45, 0xf522adb2, 0x8cd4ea6d);
    RoundsNext(57, BLOCK);
  }

  lemma After60()
    ensures |BLOCK| == 64 && Rounds(60, IV, BLOCK)
         == Regs(0xddb0a26a, 0xc3d629a9, 0x30629ecb, 0x48b6f060,
                 0x589f7d5c, 0x14fb0764, 0x6d97a915, 0x6417b402)
  {
    BlockSize();
    hide Round, Rounds, Expanded, BLOCK;
    After58();
    Words7();
    assert Xor(0x09008723, 0x864e6e08) == 0x8f4ee92b && Xor(0x86faee74, 0xf07e6590) == 0x76848be4;
    RoundBy(58, Regs(0x6598314f, 0x30245b78, 0x4f2b0a45, 0x3b696ea9,
                     0xf522adb2, 0xf6804c82, 0x8cd4ea6d, 0xaf6fb5e0), 0x09008723, 0x8f4ee92b,
            0x8314f659, 0x29ea1e76, 0x7837a40b, 0xa221c281, 0x10e140d1, 0x93f5b688,
            0x65281b4d, 0xa09189f6, 0x3487407e, 0xc3d629a9, 0xfcd44ecf, 0xac4404af,
            0xbd254580, 0xc625cca3, 0x48b6f060, 0x14fb0764, 0x6417b402);
    RoundsNext(58, BLOCK);
    RoundBy(59, Regs(0xc3d629a9, 0x6598314f, 0x48b6f060, 0x4f2b0a45,
                     0x14fb0764, 0xf522adb2, 0x6417b402, 0x8cd4ea6d), 0x86faee74, 0x76848be4,
            0x629a9c3d, 0x53d43cec, 0x7795a3a1, 0xcb69e08d, 0xb4f046e5, 0xd66adad8,
            0x41963169, 0x90c13bae, 0x672c1686, 0xddb0a26a, 0x7426b522, 0x00fb9f8f,
            0xb5ebe674, 0x3ce6d4e8, 0x30629ecb, 0x589f7d5c, 0x6d97a915);
    RoundsNext(59, BLOCK);
  }

  lemma After62()
    ensures |BLOCK| == 64 && Rounds(62, IV, BLOCK)
         == Regs(0x5e636b4b, 0x71034d71, 0x6144d5bb, 0xac535387,
                 0x09ccd95e, 0x14d5c7f6, 0xeae2c4fb, 0x3b20a7d8)
  {
    BlockSize();
    hide Round, Rounds, Expanded, BLOCK;
    After60();
    Words7(); Words8();
    assert Xor(0x2ab908b0, 0x325c8f78) == 0x18e587c8 && Xor(0x4a64bc50, 0xaccb8011) == 0xe6af3c41;
    RoundBy(60, Regs(0xddb0a26a, 0xc3d629a9, 0x30629ecb, 0x48b6f060,
                     0x589f7d5c, 0x14fb0764, 0x6d97a915, 0x6417b402), 0x2ab908b0, 0x18e587c8,
            0x0a26addb, 0xa7a879d8, 0x62c62b37, 0x0a6ea50f, 0x37528785, 0x3d742a5e,
            0xd1f2aaeb, 0x1aa99b4b, 0x581dc5a9, 0x71034d71, 0x359b8545, 0x99b33947,
            0xd105c0cc, 0xfbbec97c, 0xac535387, 0x14d5c7f6, 0x3b20a7d8);
    RoundsNext(60, BLOCK);
    RoundBy(61, Regs(0x71034d71, 0xddb0a26a, 0xac535387, 0x30629ecb,
                     0x14d5c7f6, 0x589f7d5c, 0x3b20a7d8, 0x6d97a915), 0x4a64bc50, 0xe6af3c41,
            0x34d71710, 0x4f50f3b1, 0x49acdf06, 0x98fdd2b7, 0x7ee95bcc, 0x4a3e4cdc,
            0xfd134363, 0x2d75e22e, 0x77b42f0a, 0x5e636b4b, 0x3bb5655c, 0xa94d0e71,
            0x28366a3d, 0x729b268d, 0x6144d5bb, 0x09ccd95e, 0xeae2c4fb);
    RoundsNext(61, BLOCK);
  }

  lemma After64()
    ensures |BLOCK| == 64 && Rounds(64, IV, BLOCK)
         == Regs(0x1547e69b, 0x2bfa5f60, 0xc6d696bc, 0x069ae2e2,
                 0xe808f43b, 0x4ac3cf08, 0xcaf04e66, 0x3fb0a6ae)
  {
    BlockSize();
    hide Round, Rounds, Expanded, BLOCK;
    After62();
    Words7(); Words8();
    assert Xor(0x864e6e08, 0xe11db9dd) == 0x6753d7d5 && Xor(0xf07e6590, 0xb99c0545) == 0x49e260d5;
    RoundBy(62, Regs(0x5e636b4b, 0x71034d71, 0x6144d5bb, 0xac535387,
                     0x09ccd95e, 0x14d5c7f6, 0xeae2c4fb, 0x3b20a7d8), 0x864e6e08, 0x6753d7d5,
            0x36b4b5e6, 0x9ea1e762, 0x40818f44, 0xdf2376a6, 0x91bb536f, 0xa70fe689,
            0x71434d7b, 0x1d96a102, 0xc4a6878b, 0x2bfa5f60, 0xe2e6c5f7, 0x1e076dcf,
            0xafc2c13e, 0x36112f46, 0x069ae2e2, 0x4ac3cf08, 0x3fb0a6ae);
    RoundsNext(62, BLOCK);
    RoundBy(63, Regs(0x2bfa5f60, 0x5e636b4b, 0x069ae2e2, 0x6144d5bb,
                     0x4ac3cf08, 0x09ccd95e, 0x3fb0a6ae, 0xeae2c4fb), 0xf07e6590, 0x49e260d5,
            0xa5f602bf, 0x3d43cec5, 0xf0b9d1c7, 0x2dfda08c, 0xfed04616, 0x5b2644a9,
            0x0efa6b62, 0x703f411d, 0xcb6585c6, 0x1547e69b, 0x3df0e9ae, 0x28d3aea9,
            0x27a3f4bf, 0x18225a4f, 0xc6d696bc, 0xe808f43b, 0xcaf04e66);
    RoundsNext(63, BLOCK);
  }

  lemma DigestBytes()
    ensures Output(Regs(0x66c7f0f4, 0x62eeedd9, 0xd1f2d46b, 0xdc10e4e2,
                        0x4167c487, 0x5cf2f7a2, 0x297da02b, 0x8f4ba8e0)) == DIGEST
  {
    FirstDigestBytes();
    LastDigestBytes();
    hide Be32;
  }

  lemma FirstDigestBytes()
    ensures Be32(0x66c7f0f4) == [0x66, 0xc7, 0xf0, 0xf4] && Be32(0x62eeedd9) == [0x62, 0xee, 0xed, 0xd9]
    ensures Be32(0xd1f2d46b) == [0xd1, 0xf2, 0xd4, 0x6b] && Be32(0xdc10e4e2) == [0xdc, 0x10, 0xe4, 0xe2]
  {
    hide DIGEST, BLOCK;
  }

  lemma LastDigestBytes()
    ensures Be32(0x4167c487) == [0x41, 0x67, 0xc4, 0x87] && Be32(0x5cf2f7a2) == [0x5c, 0xf2, 0xf7, 0xa2]
    ensures Be32(0x297da02b) == [0x29, 0x7d, 0xa0, 0x2b] && Be32(0x8f4ba8e0) == [0x8f, 0x4b, 0xa8, 0xe0]
  {
    hide DIGEST, BLOCK;
  }

  lemma CompressBlock()
    ensures |BLOCK| == 64 && Compress(IV, BLOCK) == Regs(0x66c7f0f4, 0x62eeedd9, 0xd1f2d46b, 0xdc10e4e2,
                 0x4167c487, 0x5cf2f7a2, 0x297da02b, 0x8f4ba8e0)
  {
    After64();
    assert Xor(0x7380166f, 0x1547e69b) == 0x66c7f0f4 && Xor(0x4914b2b9, 0x2bfa5f60) == 0x62eeedd9;
    assert Xor(0x172442d7, 0xc6d696bc) == 0xd1f2d46b && Xor(0xda8a0600, 0x069ae2e2) == 0xdc10e4e2;
    assert Xor(0xa96f30bc, 0xe808f43b) == 0x4167c487 && Xor(0x163138aa, 0x4ac3cf08) == 0x5cf2f7a2;
    assert Xor(0xe38dee4d, 0xcaf04e66) == 0x297da02b && Xor(0xb0fb0e4e, 0x3fb0a6ae) == 0x8f4ba8e0;
    hide Rounds, BLOCK;
  }

  /** The hash of "abc" is the one the standard gives. */
  lemma HashOfAbc()
    ensures Sm3(ABC) == DIGEST
  {
    hide Compress, Pad, Output, BLOCK, DIGEST;
    Padded();
    CompressBlock();
    FoldBlock(Compress, IV, [], BLOCK);
    assert [] + BLOCK == BLOCK;
    DigestBytes();
  }
}
