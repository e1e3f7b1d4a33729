/** The example of GM/T 0002-2012, appendix A.1: a block encrypted with itself as the key, round by round. */
module Sm4Example {
  import opened Words
  import opened Feistel
  import opened Sm4Spec
  import opened Sm4Tables

  /** The key, and the plain text as well. */
  const KEY: seq<bv8> := [
    0x01, 0x23, 0x45, 0x67, 0x89, 0xab, 0xcd, 0xef, 0xfe, 0xdc, 0xba, 0x98, 0x76, 0x54, 0x32, 0x10
  ]

  const CIPHER: seq<bv8> := [
    0x68, 0x1e, 0xdf, 0x34, 0xd2, 0x06, 0x96, 0x5e, 0x86, 0xb3, 0xe9, 0x4f, 0x53, 0x6e, 0x42, 0x46
  ]

  lemma RunNext(t: bv32 -> bv32, rks: seq<bv32>, n: nat, q: Quad)
    requires n < |rks|
    ensures Run(t, rks[..n + 1], q) == Round(t, rks[n], Run(t, rks[..n], q))
  {
    hide Round;
    assert rks[..n + 1][..n] == rks[..n];
  }

  /** The n-th round key is the word the n-th round of the schedule makes. */
  lemma KeyNext(key: seq<bv8>, n: nat)
    requires |key| == 16 && n < 32
    ensures |CK| == 32
    ensures Run(CalciRK, CK[..n + 1], Masked(key)) == Round(CalciRK, CK[n], Run(CalciRK, CK[..n], Masked(key)))
    ensures RoundKeys(key)[n] == Run(CalciRK, CK[..n + 1], Masked(key)).x3
  {
    TableSizes();
    hide Round, Masked, CK, SBOX;
    RunNext(CalciRK, CK, n, Masked(key));
    TracePrefix(CalciRK, CK, n + 1, Masked(key));
    assert Schedule(key)[..n + 5][n + 4] == Schedule(key)[n + 4];
  }

  lemma DataNext(rks: seq<bv32>, b: seq<bv8>, n: nat)
    requires |b| == 16 && n < |rks|
    ensures Run(Lt, rks[..n + 1], Load(b)) == Round(Lt, rks[n], Run(Lt, rks[..n], Load(b)))
  {
    hide Round, Load;
    RunNext(Lt, rks, n, Load(b));
  }

  lemma KeyStart()
    ensures |CK| == 32 && Run(CalciRK, CK[..0], Masked(KEY)) == Quad(0xa292ffa1, 0xdf01febf, 0x99a12b0f, 0xc42410cc)
  {
    TableSizes();
    hide SBOX, CK;
  }

  lemma DataStart()
    ensures Run(Lt, RoundKeys(KEY)[..0], Load(KEY)) == Quad(0x01234567, 0x89abcdef, 0xfedcba98, 0x76543210)
  {
    hide SBOX, CK, RoundKeys;
  }

  lemma KeyRounds0()
    ensures NewWord(CalciRK, 0x00070e15, Quad(0xa292ffa1, 0xdf01febf, 0x99a12b0f, 0xc42410cc)) == 0xf12186f9
    ensures NewWord(CalciRK, 0x1c232a31, Quad(0xdf01febf, 0x99a12b0f, 0xc42410cc, 0xf12186f9)) == 0x41662b61
    ensures NewWord(CalciRK, 0x383f464d, Quad(0x99a12b0f, 0xc42410cc, 0xf12186f9, 0x41662b61)) == 0x5a6ab19a
    ensures NewWord(CalciRK, 0x545b6269, Quad(0xc42410cc, 0xf12186f9, 0x41662b61, 0x5a6ab19a)) == 0x7ba92077
  {
    hide Sbox, SBOX, CK;
    Row0(); Row1(); Row4(); Row5(); Row6(); Row7(); Row8(); Row9(); Row11();
    Row12(); Row15();
  }

  lemma KeyRun0()
    ensures Run(CalciRK, CK[..4], Masked(KEY)) == Quad(0xf12186f9, 0x41662b61, 0x5a6ab19a, 0x7ba92077)
    ensures RoundKeys(KEY)[0] == 0xf12186f9 && RoundKeys(KEY)[1] == 0x41662b61
    ensures RoundKeys(KEY)[2] == 0x5a6ab19a && RoundKeys(KEY)[3] == 0x7ba92077
  {
    hide NewWord, Masked, SBOX, CK, RoundKeys, Run;
    KeyStart();
    Constants0();
    KeyRounds0();
    KeyNext(KEY, 0); KeyNext(KEY, 1); KeyNext(KEY, 2); KeyNext(KEY, 3);
  }

  lemma KeyRounds1()
    ensures NewWord(CalciRK, 0x70777e85, Quad(0xf12186f9, 0x41662b61, 0x5a6ab19a, 0x7ba92077)) == 0x367360f4
    ensures NewWord(CalciRK, 0x8c939aa1, Quad(0x41662b61, 0x5a6ab19a, 0x7ba92077, 0x367360f4)) == 0x776a0c61
    ensures NewWord(CalciRK, 0xa8afb6bd, Quad(0x5a6ab19a, 0x7ba92077, 0x367360f4, 0x776a0c61)) == 0xb6bb89b3
    ensures NewWord(CalciRK, 0xc4cbd2d9, Quad(0x7ba92077, 0x367360f4, 0x776a0c61, 0xb6bb89b3)) == 0x24763151
  {
    hide Sbox, SBOX, CK;
    Row0(); Row1(); Row2(); Row3(); Row5(); Row6(); Row9(); Row11(); Row12();
    Row13(); Row15();
  }

  lemma KeyRun1()
    ensures Run(CalciRK, CK[..8], Masked(KEY)) == Quad(0x367360f4, 0x776a0c61, 0xb6bb89b3, 0x24763151)
    ensures RoundKeys(KEY)[4] == 0x367360f4 && RoundKeys(KEY)[5] == 0x776a0c61
    ensures RoundKeys(KEY)[6] == 0xb6bb89b3 && RoundKeys(KEY)[7] == 0x24763151
  {
    hide NewWord, Masked, SBOX, CK, RoundKeys, Run;
    KeyRun0();
    Constants1();
    KeyRounds1();
    KeyNext(KEY, 4); KeyNext(KEY, 5); KeyNext(KEY, 6); KeyNext(KEY, 7);
  }

  lemma KeyRounds2()
    ensures NewWord(CalciRK, 0xe0e7eef5, Quad(0x367360f4, 0x776a0c61, 0xb6bb89b3, 0x24763151)) == 0xa520307c
    ensures NewWord(CalciRK, 0xfc030a11, Quad(0x776a0c61, 0xb6bb89b3, 0x24763151, 0xa520307c)) == 0xb7584dbd
    ensures NewWord(CalciRK, 0x181f262d, Quad(0xb6bb89b3, 0x24763151, 0xa520307c, 0xb7584dbd)) == 0xc30753ed
    ensures NewWord(CalciRK, 0x343b4249, Quad(0x24763151, 0xa520307c, 0xb7584dbd, 0xc30753ed)) == 0x7ee55b57
  {
    hide Sbox, SBOX, CK;
    Row0(); Row1(); Row2(); Row4(); Row5(); Row6(); Row7(); Row8(); Row11();
    Row12(); Row14();
  }

  lemma KeyRun2()
    ensures Run(CalciRK, CK[..12], Masked(KEY)) == Quad(0xa520307c, 0xb7584dbd, 0xc30753ed, 0x7ee55b57)
    ensures RoundKeys(KEY)[8] == 0xa520307c && RoundKeys(KEY)[9] == 0xb7584dbd
    ensures RoundKeys(KEY)[10] == 0xc30753ed && RoundKeys(KEY)[11] == 0x7ee55b57
  {
    hide NewWord, Masked, SBOX, CK, RoundKeys, Run;
    KeyRun1();
    Constants2();
    KeyRounds2();
    KeyNext(KEY, 8); KeyNext(KEY, 9); KeyNext(KEY, 10); KeyNext(KEY, 11);
  }

  lemma KeyRounds3()
    ensures NewWord(CalciRK, 0x50575e65, Quad(0xa520307c, 0xb7584dbd, 0xc30753ed, 0x7ee55b57)) == 0x6988608c
    ensures NewWord(CalciRK, 0x6c737a81, Quad(0xb7584dbd, 0xc30753ed, 0x7ee55b57, 0x6988608c)) == 0x30d895b7
    ensures NewWord(CalciRK, 0x888f969d, Quad(0xc30753ed, 0x7ee55b57, 0x6988608c, 0x30d895b7)) == 0x44ba14af
    ensures NewWord(CalciRK, 0xa4abb2b9, Quad(0x7ee55b57, 0x6988608c, 0x30d895b7, 0x44ba14af)) == 0x104495a1
  {
    hide Sbox, SBOX, CK;
    Row1(); Row2(); Row3(); Row4(); Row5(); Row6(); Row10(); Row11(); Row14();
    Row15();
  }

  lemma KeyRun3()
    ensures Run(CalciRK, CK[..16], Masked(KEY)) == Quad(0x6988608c, 0x30d895b7, 0x44ba14af, 0x104495a1)
    ensures RoundKeys(KEY)[12] == 0x6988608c && RoundKeys(KEY)[13] == 0x30d895b7
    ensures RoundKeys(KEY)[14] == 0x44ba14af && RoundKeys(KEY)[15] == 0x104495a1
  {
    hide NewWord, Masked, SBOX, CK, RoundKeys, Run;
    KeyRun2();
    Constants3();
    KeyRounds3();
    KeyNext(KEY, 12); KeyNext(KEY, 13); KeyNext(KEY, 14); KeyNext(KEY, 15);
  }

  lemma KeyRounds4()
    ensures NewWord(CalciRK, 0xc0c7ced5, Quad(0x6988608c, 0x30d895b7, 0x44ba14af, 0x104495a1)) == 0xd120b428
    ensures NewWord(CalciRK, 0xdce3eaf1, Quad(0x30d895b7, 0x44ba14af, 0x104495a1, 0xd120b428)) == 0x73b55fa3
    ensures NewWord(CalciRK, 0xf8ff060d, Quad(0x44ba14af, 0x104495a1, 0xd120b428, 0x73b55fa3)) == 0xcc874966
    ensures NewWord(CalciRK, 0x141b2229, Quad(0x104495a1, 0xd120b428, 0x73b55fa3, 0xcc874966)) == 0x92244439
  {
    hide Sbox, SBOX, CK;
    Row0(); Row2(); Row3(); Row4(); Row5(); Row6(); Row7(); Row8(); Row10();
    Row12(); Row13(); Row14();
  }

  lemma KeyRun4()
    ensures Run(CalciRK, CK[..20], Masked(KEY)) == Quad(0xd120b428, 0x73b55fa3, 0xcc874966, 0x92244439)
    ensures RoundKeys(KEY)[16] == 0xd120b428 && RoundKeys(KEY)[17] == 0x73b55fa3
    ensures RoundKeys(KEY)[18] == 0xcc874966 && RoundKeys(KEY)[19] == 0x92244439
  {
    hide NewWord, Masked, SBOX, CK, RoundKeys, Run;
    KeyRun3();
    Constants4();
    KeyRounds4();
    KeyNext(KEY, 16); KeyNext(KEY, 17); KeyNext(KEY, 18); KeyNext(KEY, 19);
  }

  lemma KeyRounds5()
    ensures NewWord(CalciRK, 0x30373e45, Quad(0xd120b428, 0x73b55fa3, 0xcc874966, 0x92244439)) == 0xe89e641f
    ensures NewWord(CalciRK, 0x4c535a61, Quad(0x73b55fa3, 0xcc874966, 0x92244439, 0xe89e641f)) == 0x98ca015a
    ensures NewWord(CalciRK, 0x686f767d, Quad(0xcc874966, 0x92244439, 0xe89e641f, 0x98ca015a)) == 0xc7159060
    ensures NewWord(CalciRK, 0x848b9299, Quad(0x92244439, 0xe89e641f, 0x98ca015a, 0xc7159060)) == 0x99e1fd2e
  {
    hide Sbox, SBOX, CK;
    Row0(); Row1(); Row2(); Row3(); Row5(); Row6(); Row8(); Row11(); Row12();
    Row15();
  }

  lemma KeyRun5()
    ensures Run(CalciRK, CK[..24], Masked(KEY)) == Quad(0xe89e641f, 0x98ca015a, 0xc7159060, 0x99e1fd2e)
    ensures RoundKeys(KEY)[20] == 0xe89e641f && RoundKeys(KEY)[21] == 0x98ca015a
    ensures RoundKeys(KEY)[22] == 0xc7159060 && RoundKeys(KEY)[23] == 0x99e1fd2e
  {
    hide NewWord, Masked, SBOX, CK, RoundKeys, Run;
    KeyRun4();
    Constants5();
    KeyRounds5();
    KeyNext(KEY, 20); KeyNext(KEY, 21); KeyNext(KEY, 22); KeyNext(KEY, 23);
  }

  lemma KeyRounds6()
    ensures NewWord(CalciRK, 0xa0a7aeb5, Quad(0xe89e641f, 0x98ca015a, 0xc7159060, 0x99e1fd2e)) == 0xb79bd80c
    ensures NewWord(CalciRK, 0xbcc3cad1, Quad(0x98ca015a, 0xc7159060, 0x99e1fd2e, 0xb79bd80c)) == 0x1d2115b0
    ensures NewWord(CalciRK, 0xd8dfe6ed, Quad(0xc7159060, 0x99e1fd2e, 0xb79bd80c, 0x1d2115b0)) == 0x0e228aeb
    ensures NewWord(CalciRK, 0xf4fb0209, Quad(0x99e1fd2e, 0xb79bd80c, 0x1d2115b0, 0x0e228aeb)) == 0xf1780c81
  {
    hide Sbox, SBOX, CK;
    Row4(); Row5(); Row6(); Row7(); Row8(); Row9(); Row10(); Row12(); Row13();
    Row14();
  }

  lemma KeyRun6()
    ensures Run(CalciRK, CK[..28], Masked(KEY)) == Quad(0xb79bd80c, 0x1d2115b0, 0x0e228aeb, 0xf1780c81)
    ensures RoundKeys(KEY)[24] == 0xb79bd80c && RoundKeys(KEY)[25] == 0x1d2115b0
    ensures RoundKeys(KEY)[26] == 0x0e228aeb && RoundKeys(KEY)[27] == 0xf1780c81
  {
    hide NewWord, Masked, SBOX, CK, RoundKeys, Run;
    KeyRun5();
    Constants6();
    KeyRounds6();
    KeyNext(KEY, 24); KeyNext(KEY, 25); KeyNext(KEY, 26); KeyNext(KEY, 27);
  }

  lemma KeyRounds7()
    ensures NewWord(CalciRK, 0x10171e25, Quad(0xb79bd80c, 0x1d2115b0, 0x0e228aeb, 0xf1780c81)) == 0x428d3654
    ensures NewWord(CalciRK, 0x2c333a41, Quad(0x1d2115b0, 0x0e228aeb, 0xf1780c81, 0x428d3654)) == 0x62293496
    ensures NewWord(CalciRK, 0x484f565d, Quad(0x0e228aeb, 0xf1780c81, 0x428d3654, 0x62293496)) == 0x01cf72e5
    ensures NewWord(CalciRK, 0x646b7279, Quad(0xf1780c81, 0x428d3654, 0x62293496, 0x01cf72e5)) == 0x9124a012
  {
    hide Sbox, SBOX, CK;
    Row0(); Row1(); Row4(); Row5(); Row6(); Row7(); Row8(); Row9(); Row14();
    Row15();
  }

  lemma KeyRun7()
    ensures Run(CalciRK, CK[..32], Masked(KEY)) == Quad(0x428d3654, 0x62293496, 0x01cf72e5, 0x9124a012)
    ensures RoundKeys(KEY)[28] == 0x428d3654 && RoundKeys(KEY)[29] == 0x62293496
    ensures RoundKeys(KEY)[30] == 0x01cf72e5 && RoundKeys(KEY)[31] == 0x9124a012
  {
    hide NewWord, Masked, SBOX, CK, RoundKeys, Run;
    KeyRun6();
    Constants7();
    KeyRounds7();
    KeyNext(KEY, 28); KeyNext(KEY, 29); KeyNext(KEY, 30); KeyNext(KEY, 31);
  }

  lemma DataRounds0()
    ensures NewWord(Lt, 0xf12186f9, Quad(0x01234567, 0x89abcdef, 0xfedcba98, 0x76543210)) == 0x27fad345
    ensures NewWord(Lt, 0x41662b61, Quad(0x89abcdef, 0xfedcba98, 0x76543210, 0x27fad345)) == 0xa18b4cb2
    ensures NewWord(Lt, 0x5a6ab19a, Quad(0xfedcba98, 0x76543210, 0x27fad345, 0xa18b4cb2)) == 0x11c1e22a
    ensures NewWord(Lt, 0x7ba92077, Quad(0x76543210, 0x27fad345, 0xa18b4cb2, 0x11c1e22a)) == 0xcc13e2ee
  {
    hide Sbox, SBOX, CK;
    Row0(); Row1(); Row4(); Row5(); Row7(); Row9(); Row10(); Row12(); Row14();
    Row15();
  }

  lemma DataRun0()
    ensures Run(Lt, RoundKeys(KEY)[..4], Load(KEY)) == Quad(0x27fad345, 0xa18b4cb2, 0x11c1e22a, 0xcc13e2ee)
  {
    hide NewWord, Load, SBOX, CK, RoundKeys, Run;
    DataStart();
    KeyRun0();
    DataRounds0();
    DataNext(RoundKeys(KEY), KEY, 0); DataNext(RoundKeys(KEY), KEY, 1);
    DataNext(RoundKeys(KEY), KEY, 2); DataNext(RoundKeys(KEY), KEY, 3);
  }

  lemma DataRounds1()
    ensures NewWord(Lt, 0x367360f4, Quad(0x27fad345, 0xa18b4cb2, 0x11c1e22a, 0xcc13e2ee)) == 0xf87c5bd5
    ensures NewWord(Lt, 0x776a0c61, Quad(0xa18b4cb2, 0x11c1e22a, 0xcc13e2ee, 0xf87c5bd5)) == 0x33220757
    ensures NewWord(Lt, 0xb6bb89b3, Quad(0x11c1e22a, 0xcc13e2ee, 0xf87c5bd5, 0x33220757)) == 0x77f4c297
    ensures NewWord(Lt, 0x24763151, Quad(0xcc13e2ee, 0xf87c5bd5, 0x33220757, 0x77f4c297)) == 0x7a96f2eb
  {
    hide Sbox, SBOX, CK;
    Row2(); Row3(); Row4(); Row5(); Row7(); Row8(); Row9(); Row10(); Row11();
    Row12(); Row13(); Row15();
  }

  lemma DataRun1()
    ensures Run(Lt, RoundKeys(KEY)[..8], Load(KEY)) == Quad(0xf87c5bd5, 0x33220757, 0x77f4c297, 0x7a96f2eb)
  {
    hide NewWord, Load, SBOX, CK, RoundKeys, Run;
    DataRun0();
    KeyRun1();
    DataRounds1();
    DataNext(RoundKeys(KEY), KEY, 4); DataNext(RoundKeys(KEY), KEY, 5);
    DataNext(RoundKeys(KEY), KEY, 6); DataNext(RoundKeys(KEY), KEY, 7);
  }

  lemma DataRounds2()
    ensures NewWord(Lt, 0xa520307c, Quad(0xf87c5bd5, 0x33220757, 0x77f4c297, 0x7a96f2eb)) == 0x27dac07f
    ensures NewWord(Lt, 0xb7584dbd, Quad(0x33220757, 0x77f4c297, 0x7a96f2eb, 0x27dac07f)) == 0x42dd0f19
    ensures NewWord(Lt, 0xc30753ed, Quad(0x77f4c297, 0x7a96f2eb, 0x27dac07f, 0x42dd0f19)) == 0xb8a5da02
    ensures NewWord(Lt, 0x7ee55b57, Quad(0x7a96f2eb, 0x27dac07f, 0x42dd0f19, 0xb8a5da02)) == 0x907127fa
  {
    hide Sbox, SBOX, CK;
    Row0(); Row3(); Row4(); Row5(); Row6(); Row9(); Row10(); Row11(); Row13();
    Row14();
  }

  lemma DataRun2()
    ensures Run(Lt, RoundKeys(KEY)[..12], Load(KEY)) == Quad(0x27dac07f, 0x42dd0f19, 0xb8a5da02, 0x907127fa)
  {
    hide NewWord, Load, SBOX, CK, RoundKeys, Run;
    DataRun1();
    KeyRun2();
    DataRounds2();
    DataNext(RoundKeys(KEY), KEY, 8); DataNext(RoundKeys(KEY), KEY, 9);
    DataNext(RoundKeys(KEY), KEY, 10); DataNext(RoundKeys(KEY), KEY, 11);
  }

  lemma DataRounds3()
    ensures NewWord(Lt, 0x6988608c, Quad(0x27dac07f, 0x42dd0f19, 0xb8a5da02, 0x907127fa)) == 0x8b952b83
    ensures NewWord(Lt, 0x30d895b7, Quad(0x42dd0f19, 0xb8a5da02, 0x907127fa, 0x8b952b83)) == 0xd42b7c59
    ensures NewWord(Lt, 0x44ba14af, Quad(0xb8a5da02, 0x907127fa, 0x8b952b83, 0xd42b7c59)) == 0x2ffc5831
    ensures NewWord(Lt, 0x104495a1, Quad(0x907127fa, 0x8b952b83, 0xd42b7c59, 0x2ffc5831)) == 0xf69e6888
  {
    hide Sbox, SBOX, CK;
    Row0(); Row4(); Row6(); Row7(); Row8(); Row9(); Row12();
  }

  lemma DataRun3()
    ensures Run(Lt, RoundKeys(KEY)[..16], Load(KEY)) == Quad(0x8b952b83, 0xd42b7c59, 0x2ffc5831, 0xf69e6888)
  {
    hide NewWord, Load, SBOX, CK, RoundKeys, Run;
    DataRun2();
    KeyRun3();
    DataRounds3();
    DataNext(RoundKeys(KEY), KEY, 12); DataNext(RoundKeys(KEY), KEY, 13);
    DataNext(RoundKeys(KEY), KEY, 14); DataNext(RoundKeys(KEY), KEY, 15);
  }

  lemma DataRounds4()
    ensures NewWord(Lt, 0xd120b428, Quad(0x8b952b83, 0xd42b7c59, 0x2ffc5831, 0xf69e6888)) == 0xaf2432c4
    ensures NewWord(Lt, 0x73b55fa3, Quad(0xd42b7c59, 0x2ffc5831, 0xf69e6888, 0xaf2432c4)) == 0xed1ec85e
    ensures NewWord(Lt, 0xcc874966, Quad(0x2ffc5831, 0xf69e6888, 0xaf2432c4, 0xed1ec85e)) == 0x55a3ba22
    ensures NewWord(Lt, 0x92244439, Quad(0xf69e6888, 0xaf2432c4, 0xed1ec85e, 0x55a3ba22)) == 0x124b18aa
  {
    hide Sbox, SBOX, CK;
    Row0(); Row2(); Row5(); Row6(); Row7(); Row8(); Row11(); Row12(); Row13();
    Row15();
  }

  lemma DataRun4()
    ensures Run(Lt, RoundKeys(KEY)[..20], Load(KEY)) == Quad(0xaf2432c4, 0xed1ec85e, 0x55a3ba22, 0x124b18aa)
  {
    hide NewWord, Load, SBOX, CK, RoundKeys, Run;
    DataRun3();
    KeyRun4();
    DataRounds4();
    DataNext(RoundKeys(KEY), KEY, 16); DataNext(RoundKeys(KEY), KEY, 17);
    DataNext(RoundKeys(KEY), KEY, 18); DataNext(RoundKeys(KEY), KEY, 19);
  }

  lemma DataRounds5()
    ensures NewWord(Lt, 0xe89e641f, Quad(0xaf2432c4, 0xed1ec85e, 0x55a3ba22, 0x124b18aa)) == 0x6ae7725f
    ensures NewWord(Lt, 0x98ca015a, Quad(0xed1ec85e, 0x55a3ba22, 0x124b18aa, 0x6ae7725f)) == 0xf4cba1f9
    ensures NewWord(Lt, 0xc7159060, Quad(0x55a3ba22, 0x124b18aa, 0x6ae7725f, 0xf4cba1f9)) == 0x1dcdfa10
    ensures NewWord(Lt, 0x99e1fd2e, Quad(0x124b18aa, 0x6ae7725f, 0xf4cba1f9, 0x1dcdfa10)) == 0x2ff60603
  {
    hide Sbox, SBOX, CK;
    Row0(); Row1(); Row4(); Row5(); Row6(); Row7(); Row8(); Row9(); Row11();
    Row12(); Row13();
  }

  lemma DataRun5()
    ensures Run(Lt, RoundKeys(KEY)[..24], Load(KEY)) == Quad(0x6ae7725f, 0xf4cba1f9, 0x1dcdfa10, 0x2ff60603)
  {
    hide NewWord, Load, SBOX, CK, RoundKeys, Run;
    DataRun4();
    KeyRun5();
    DataRounds5();
    DataNext(RoundKeys(KEY), KEY, 20); DataNext(RoundKeys(KEY), KEY, 21);
    DataNext(RoundKeys(KEY), KEY, 22); DataNext(RoundKeys(KEY), KEY, 23);
  }

  lemma DataRounds6()
    ensures NewWord(Lt, 0xb79bd80c, Quad(0x6ae7725f, 0xf4cba1f9, 0x1dcdfa10, 0x2ff60603)) == 0xeff24fdc
    ensures NewWord(Lt, 0x1d2115b0, Quad(0xf4cba1f9, 0x1dcdfa10, 0x2ff60603, 0xeff24fdc)) == 0x6fe46b75
    ensures NewWord(Lt, 0x0e228aeb, Quad(0x1dcdfa10, 0x2ff60603, 0xeff24fdc, 0x6fe46b75)) == 0x893450ad
    ensures NewWord(Lt, 0xf1780c81, Quad(0x2ff60603, 0xeff24fdc, 0x6fe46b75, 0x893450ad)) == 0x7b938f4c
  {
    hide Sbox, SBOX, CK;
    Row4(); Row5(); Row6(); Row7(); Row8(); Row10(); Row12(); Row14(); Row15();
  }

  lemma DataRun6()
    ensures Run(Lt, RoundKeys(KEY)[..28], Load(KEY)) == Quad(0xeff24fdc, 0x6fe46b75, 0x893450ad, 0x7b938f4c)
  {
    hide NewWord, Load, SBOX, CK, RoundKeys, Run;
    DataRun5();
    KeyRun6();
    DataRounds6();
    DataNext(RoundKeys(KEY), KEY, 24); DataNext(RoundKeys(KEY), KEY, 25);
    DataNext(RoundKeys(KEY), KEY, 26); DataNext(RoundKeys(KEY), KEY, 27);
  }

  lemma DataRounds7()
    ensures NewWord(Lt, 0x428d3654, Quad(0xeff24fdc, 0x6fe46b75, 0x893450ad, 0x7b938f4c)) == 0x536e4246
    ensures NewWord(Lt, 0x62293496, Quad(0x6fe46b75, 0x893450ad, 0x7b938f4c, 0x536e4246)) == 0x86b3e94f
    ensures NewWord(Lt, 0x01cf72e5, Quad(0x893450ad, 0x7b938f4c, 0x536e4246, 0x86b3e94f)) == 0xd206965e
    ensures NewWord(Lt, 0x9124a012, Quad(0x7b938f4c, 0x536e4246, 0x86b3e94f, 0xd206965e)) == 0x681edf34
  {
    hide Sbox, SBOX, CK;
    Row3(); Row4(); Row5(); Row8(); Row9(); Row10(); Row12(); Row13(); Row14();
    Row15();
  }

  lemma DataRun7()
    ensures Run(Lt, RoundKeys(KEY)[..32], Load(KEY)) == Quad(0x536e4246, 0x86b3e94f, 0xd206965e, 0x681edf34)
  {
    hide NewWord, Load, SBOX, CK, RoundKeys, Run;
    DataRun6();
    KeyRun7();
    DataRounds7();
    DataNext(RoundKeys(KEY), KEY, 28); DataNext(RoundKeys(KEY), KEY, 29);
    DataNext(RoundKeys(KEY), KEY, 30); DataNext(RoundKeys(KEY), KEY, 31);
  }

  lemma CipherBytes()
    ensures Store(Quad(0x681edf34, 0xd206965e, 0x86b3e94f, 0x536e4246)) == CIPHER
  {
    hide SBOX, CK;
    assert Be32(0x681edf34) == [0x68, 0x1e, 0xdf, 0x34];
    assert Be32(0xd206965e) == [0xd2, 0x06, 0x96, 0x5e];
    assert Be32(0x86b3e94f) == [0x86, 0xb3, 0xe9, 0x4f];
    assert Be32(0x536e4246) == [0x53, 0x6e, 0x42, 0x46];
  }

  lemma AfterRun(rks: seq<bv32>, b: seq<bv8>, q: Quad)
    requires |rks| == 32 && |b| == 16 && Run(Lt, rks[..32], Load(b)) == q
    ensures CryptBlock(rks, b) == Store(Flip(q))
  {
    hide Run, Load, Store, Flip;
    assert rks[..32] == rks;
  }

  /** Key and plain text 0123456789abcdeffedcba9876543210 give the cipher text of the standard. */
  lemma BlockEncrypted()
    ensures CryptBlock(RoundKeys(KEY), KEY) == CIPHER
  {
    hide SBOX, CK, RoundKeys, Run, Store, Load, CIPHER, CryptBlock;
    DataRun7();
    CipherBytes();
    AfterRun(RoundKeys(KEY), KEY, Quad(0x536e4246, 0x86b3e94f, 0xd206965e, 0x681edf34));
  }
}
