/** ECB, ECB with a copied tail, and CBC over SM4, as functions on byte strings, and their inverses. */
module Sm4Modes {
  import opened Feistel
  import opened Sm4Spec

  function Whole(n: nat): (r: nat)
    ensures r % 16 == 0 && r <= n < r + 16
  {
    n - n % 16
  }

  // ----- ECB -----

  function Ecb(rks: seq<bv32>, m: seq<bv8>): (c: seq<bv8>)
    requires |m| % 16 == 0
    ensures |c| == |m|
    decreases |m|
  {
    if m == [] then [] else CryptBlock(rks, m[..16]) + Ecb(rks, m[16..])
  }

  lemma {:induction false} EcbAppend(rks: seq<bv32>, a: seq<bv8>, b: seq<bv8>)
    requires |a| % 16 == 0 && |b| % 16 == 0
    ensures Ecb(rks, a + b) == Ecb(rks, a) + Ecb(rks, b)
    decreases |a|
  {
    hide CryptBlock;
    if a == [] {
      assert a + b == b;
    } else {
      assert (a + b)[..16] == a[..16] && (a + b)[16..] == a[16..] + b;
      EcbAppend(rks, a[16..], b);
    }
  }

  lemma EcbBlock(rks: seq<bv32>, b: seq<bv8>)
    requires |b| == 16
    ensures Ecb(rks, b) == CryptBlock(rks, b)
  {
    hide CryptBlock;
    assert b[..16] == b && Ecb(rks, b[16..]) == [];
  }

  lemma NothingDone(rks: seq<bv32>, m: seq<bv8>)
    ensures Ecb(rks, m[..0]) == []
  {
    assert m[..0] == [];
  }

  lemma EcbGrows(rks: seq<bv32>, m: seq<bv8>, p: nat)
    requires p % 16 == 0 && p + 16 <= |m|
    ensures Ecb(rks, m[..p + 16]) == Ecb(rks, m[..p]) + CryptBlock(rks, m[p..p + 16])
  {
    hide CryptBlock;
    EcbBlock(rks, m[p..p + 16]);
    EcbAppend(rks, m[..p], m[p..p + 16]);
    assert m[..p] + m[p..p + 16] == m[..p + 16];
  }

  lemma {:induction false} EcbUndone(rks: seq<bv32>, m: seq<bv8>)
    requires |m| % 16 == 0
    ensures Ecb(Reverse(rks), Ecb(rks, m)) == m
    decreases |m|
  {
    hide CryptBlock, Reverse;
    if m != [] {
      var c := CryptBlock(rks, m[..16]);
      assert Ecb(rks, m)[..16] == c && Ecb(rks, m)[16..] == Ecb(rks, m[16..]);
      BlockUndone(rks, m[..16]);
      EcbUndone(rks, m[16..]);
    }
  }

  /** `sm_crypt_ecb_16`: whole blocks are encrypted, the last incomplete block is copied. */
  function EcbTail(rks: seq<bv32>, m: seq<bv8>): (c: seq<bv8>)
    ensures |c| == |m|
  {
    Ecb(rks, m[..Whole(|m|)]) + m[Whole(|m|)..]
  }

  /** Decrypting with the reversed round keys restores every byte, the copied tail included. */
  lemma EcbTailUndone(rks: seq<bv32>, m: seq<bv8>)
    ensures EcbTail(Reverse(rks), EcbTail(rks, m)) == m
  {
    hide Ecb, Reverse;
    var c := EcbTail(rks, m);
    EcbUndone(rks, m[..Whole(|m|)]);
    assert c[..Whole(|m|)] == Ecb(rks, m[..Whole(|m|)]);
  }

  /** Cutting the input at a block boundary does not change the output. */
  lemma EcbTailAppend(rks: seq<bv32>, a: seq<bv8>, b: seq<bv8>)
    requires |a| % 16 == 0
    ensures EcbTail(rks, a + b) == EcbTail(rks, a) + EcbTail(rks, b)
  {
    hide Ecb;
    var k := Whole(|b|);
    assert Whole(|a + b|) == |a| + k && Whole(|a|) == |a|;
    assert (a + b)[..|a| + k] == a + b[..k] && (a + b)[|a| + k..] == b[k..];
    EcbAppend(rks, a, b[..k]);
    assert a[..|a|] == a && a[|a|..] == [];
  }

  // ----- CBC (section 6.2 of NIST SP 800-38A) -----

  function XorBlock(a: seq<bv8>, b: seq<bv8>): (r: seq<bv8>)
    requires |a| == 16 && |b| == 16
    ensures |r| == 16
  {
    seq(16, i requires 0 <= i < 16 => a[i] ^ b[i])
  }

  lemma XorBlockAt(a: seq<bv8>, b: seq<bv8>, i: nat)
    requires |a| == 16 && |b| == 16 && i < 16
    ensures XorBlock(a, b)[i] == a[i] ^ b[i]
  {
  }

  lemma XorBlockTwice(a: seq<bv8>, b: seq<bv8>)
    requires |a| == 16 && |b| == 16
    ensures XorBlock(XorBlock(a, b), b) == a
  {
    hide XorBlock;
    forall i | 0 <= i < 16 ensures XorBlock(XorBlock(a, b), b)[i] == a[i] {
      XorBlockAt(a, b, i);
      XorBlockAt(XorBlock(a, b), b, i);
      assert (a[i] ^ b[i]) ^ b[i] == a[i];
    }
  }

  function CbcEncrypt(rks: seq<bv32>, iv: seq<bv8>, m: seq<bv8>): (c: seq<bv8>)
    requires |iv| == 16 && |m| % 16 == 0
    ensures |c| == |m|
    decreases |m|
  {
    if m == [] then []
    else
      var c := CryptBlock(rks, XorBlock(m[..16], iv));
      c + CbcEncrypt(rks, c, m[16..])
  }

  function CbcDecrypt(rks: seq<bv32>, iv: seq<bv8>, c: seq<bv8>): (m: seq<bv8>)
    requires |iv| == 16 && |c| % 16 == 0
    ensures |m| == |c|
    decreases |c|
  {
    if c == [] then []
    else XorBlock(CryptBlock(rks, c[..16]), iv) + CbcDecrypt(rks, c[..16], c[16..])
  }

  /** The block `k` of a message. */
  function BlockAt(m: seq<bv8>, k: nat): (r: seq<bv8>)
    requires 16 * k + 16 <= |m|
    ensures |r| == 16
  {
    m[16 * k..16 * k + 16]
  }

  /** The cipher block before the block `k`, the initial vector for the first. */
  function Before(iv: seq<bv8>, c: seq<bv8>, k: nat): (r: seq<bv8>)
    requires |iv| == 16 && 16 * k <= |c|
    ensures |r| == 16
  {
    if k == 0 then iv else BlockAt(c, k - 1)
  }

  lemma BlockBehind(first: seq<bv8>, rest: seq<bv8>, k: nat)
    requires |first| == 16 && 16 * k + 16 <= |rest|
    ensures BlockAt(first + rest, k + 1) == BlockAt(rest, k)
  {
    assert (first + rest)[16 * k + 16..16 * k + 32] == rest[16 * k..16 * k + 16];
  }

  lemma CbcFront(rks: seq<bv32>, iv: seq<bv8>, m: seq<bv8>)
    requires |iv| == 16 && |m| % 16 == 0 && m != []
    ensures var c := CryptBlock(rks, XorBlock(m[..16], iv));
            CbcEncrypt(rks, iv, m) == c + CbcEncrypt(rks, c, m[16..])
  {
    hide CryptBlock, XorBlock;
  }

  /** The defining equations of CBC encryption, block by block. */
  lemma {:induction false} CbcBlockAt(rks: seq<bv32>, iv: seq<bv8>, m: seq<bv8>, k: nat)
    requires |iv| == 16 && |m| % 16 == 0 && 16 * k + 16 <= |m|
    ensures var c := CbcEncrypt(rks, iv, m);
            BlockAt(c, k) == CryptBlock(rks, XorBlock(BlockAt(m, k), Before(iv, c, k)))
    decreases k
  {
    hide CryptBlock, XorBlock, CbcEncrypt, BlockAt;
    var first := CryptBlock(rks, XorBlock(m[..16], iv));
    var rest := CbcEncrypt(rks, first, m[16..]);
    CbcFront(rks, iv, m);
    assert m == m[..16] + m[16..];
    if k == 0 {
      FirstBlockAt(first, rest);
      FirstBlockAt(m[..16], m[16..]);
    } else {
      CbcBlockAt(rks, first, m[16..], k - 1);
      BlockBehind(m[..16], m[16..], k - 1);
      BlockBehind(first, rest, k - 1);
      if k == 1 {
        FirstBlockAt(first, rest);
      } else {
        BlockBehind(first, rest, k - 2);
      }
    }
  }

  lemma FirstBlockAt(first: seq<bv8>, rest: seq<bv8>)
    requires |first| == 16
    ensures BlockAt(first + rest, 0) == first
  {
  }

  /** The chaining value after `c`: its last block, or `iv` when there is none. */
  function NextIv(iv: seq<bv8>, c: seq<bv8>): (r: seq<bv8>)
    requires |iv| == 16 && |c| % 16 == 0
    ensures |r| == 16
  {
    if c == [] then iv else c[|c| - 16..]
  }

  lemma {:induction false} CbcUndone(rks: seq<bv32>, iv: seq<bv8>, m: seq<bv8>)
    requires |iv| == 16 && |m| % 16 == 0
    ensures CbcDecrypt(Reverse(rks), iv, CbcEncrypt(rks, iv, m)) == m
    decreases |m|
  {
    hide CryptBlock, Reverse, XorBlock;
    if m != [] {
      var c := CryptBlock(rks, XorBlock(m[..16], iv));
      assert CbcEncrypt(rks, iv, m)[..16] == c && CbcEncrypt(rks, iv, m)[16..] == CbcEncrypt(rks, c, m[16..]);
      BlockUndone(rks, XorBlock(m[..16], iv));
      XorBlockTwice(m[..16], iv);
      CbcUndone(rks, c, m[16..]);
    }
  }

  lemma FirstBlock(a: seq<bv8>, b: seq<bv8>)
    requires |a| >= 16
    ensures (a + b)[..16] == a[..16] && (a + b)[16..] == a[16..] + b
  {
  }

  /** Encrypting in two calls, the second with the chaining value the first left, is encrypting in one. */
  lemma {:induction false} CbcEncryptAppend(rks: seq<bv32>, iv: seq<bv8>, a: seq<bv8>, b: seq<bv8>)
    requires |iv| == 16 && |a| % 16 == 0 && |b| % 16 == 0
    ensures var ca := CbcEncrypt(rks, iv, a);
            CbcEncrypt(rks, iv, a + b) == ca + CbcEncrypt(rks, NextIv(iv, ca), b)
    decreases |a|
  {
    hide CryptBlock, XorBlock;
    if a == [] {
      assert a + b == b;
    } else {
      var c := CryptBlock(rks, XorBlock(a[..16], iv));
      FirstBlock(a, b);
      CbcEncryptAppend(rks, c, a[16..], b);
      NextIvOfCons(iv, c, CbcEncrypt(rks, c, a[16..]));
    }
  }

  lemma {:induction false} CbcDecryptAppend(rks: seq<bv32>, iv: seq<bv8>, a: seq<bv8>, b: seq<bv8>)
    requires |iv| == 16 && |a| % 16 == 0 && |b| % 16 == 0 && |a + b| % 16 == 0
    ensures CbcDecrypt(rks, iv, a + b) == CbcDecrypt(rks, iv, a) + CbcDecrypt(rks, NextIv(iv, a), b)
    decreases |a|
  {
    hide CryptBlock, XorBlock;
    if a == [] {
      assert a + b == b;
    } else {
      FirstBlock(a, b);
      CbcDecryptAppend(rks, a[..16], a[16..], b);
      NextIvOfCons(iv, a[..16], a[16..]);
      assert a[..16] + a[16..] == a;
    }
  }

  lemma NextIvOfCons(iv: seq<bv8>, block: seq<bv8>, rest: seq<bv8>)
    requires |iv| == 16 && |block| == 16 && |rest| % 16 == 0
    ensures NextIv(iv, block + rest) == NextIv(block, rest)
  {
  }

  lemma NextIvOfSnoc(iv: seq<bv8>, done: seq<bv8>, block: seq<bv8>)
    requires |iv| == 16 && |block| == 16 && |done| % 16 == 0
    ensures NextIv(iv, done + block) == block
  {
  }

  lemma CbcEncryptBlock(rks: seq<bv32>, iv: seq<bv8>, b: seq<bv8>)
    requires |iv| == 16 && |b| == 16
    ensures CbcEncrypt(rks, iv, b) == CryptBlock(rks, XorBlock(b, iv))
  {
    hide CryptBlock, XorBlock;
    assert b[..16] == b && b[16..] == [];
    assert forall iv' :: |iv'| == 16 ==> CbcEncrypt(rks, iv', []) == [];
  }

  lemma CbcDecryptBlock(rks: seq<bv32>, iv: seq<bv8>, b: seq<bv8>)
    requires |iv| == 16 && |b| == 16
    ensures CbcDecrypt(rks, iv, b) == XorBlock(CryptBlock(rks, b), iv)
  {
    hide CryptBlock, XorBlock;
    assert b[..16] == b && CbcDecrypt(rks, b, b[16..]) == [];
  }

  /** The first `p` bytes of `m` are encrypted into `c`, and `chain` is the chaining value reached. */
  ghost predicate Encrypted(rks: seq<bv32>, iv: seq<bv8>, m: seq<bv8>, p: nat, c: seq<bv8>, chain: seq<bv8>) {
    && |iv| == 16 && p % 16 == 0 && p <= |m|
    && c == CbcEncrypt(rks, iv, m[..p]) && chain == NextIv(iv, c)
  }

  /** The first `p` bytes of `c` are decrypted into `m`, and `chain` is the chaining value reached. */
  ghost predicate Decrypted(rks: seq<bv32>, iv: seq<bv8>, c: seq<bv8>, p: nat, m: seq<bv8>, chain: seq<bv8>) {
    && |iv| == 16 && p % 16 == 0 && p <= |c|
    && m == CbcDecrypt(rks, iv, c[..p]) && chain == NextIv(iv, c[..p])
  }

  lemma EncryptedStart(rks: seq<bv32>, iv: seq<bv8>, m: seq<bv8>)
    requires |iv| == 16
    ensures Encrypted(rks, iv, m, 0, [], iv)
  {
  }

  lemma DecryptedStart(rks: seq<bv32>, iv: seq<bv8>, c: seq<bv8>)
    requires |iv| == 16
    ensures Decrypted(rks, iv, c, 0, [], iv)
  {
  }

  lemma EncryptedGrows(rks: seq<bv32>, iv: seq<bv8>, m: seq<bv8>, p: nat, c: seq<bv8>, chain: seq<bv8>)
    requires Encrypted(rks, iv, m, p, c, chain) && p + 16 <= |m|
    ensures |chain| == 16
    ensures var next := CryptBlock(rks, XorBlock(m[p..p + 16], chain));
            Encrypted(rks, iv, m, p + 16, c + next, next)
  {
    hide CryptBlock, XorBlock, CbcEncrypt, NextIv;
    CbcEncryptAppend(rks, iv, m[..p], m[p..p + 16]);
    CbcEncryptBlock(rks, chain, m[p..p + 16]);
    assert m[..p] + m[p..p + 16] == m[..p + 16];
    NextIvOfSnoc(iv, c, CryptBlock(rks, XorBlock(m[p..p + 16], chain)));
  }

  lemma DecryptedGrows(rks: seq<bv32>, iv: seq<bv8>, c: seq<bv8>, p: nat, m: seq<bv8>, chain: seq<bv8>)
    requires Decrypted(rks, iv, c, p, m, chain) && p + 16 <= |c|
    ensures |chain| == 16
    ensures Decrypted(rks, iv, c, p + 16, m + XorBlock(CryptBlock(rks, c[p..p + 16]), chain), c[p..p + 16])
  {
    hide CryptBlock, XorBlock, CbcDecrypt, NextIv;
    CbcDecryptAppend(rks, iv, c[..p], c[p..p + 16]);
    CbcDecryptBlock(rks, chain, c[p..p + 16]);
    assert c[..p] + c[p..p + 16] == c[..p + 16];
    NextIvOfSnoc(iv, c[..p], c[p..p + 16]);
  }

  lemma EncryptedAll(rks: seq<bv32>, iv: seq<bv8>, m: seq<bv8>, c: seq<bv8>, chain: seq<bv8>)
    requires Encrypted(rks, iv, m, |m|, c, chain)
    ensures |iv| == 16 && |m| % 16 == 0 && c == CbcEncrypt(rks, iv, m) && chain == NextIv(iv, c)
  {
    assert m[..|m|] == m;
  }

  lemma DecryptedAll(rks: seq<bv32>, iv: seq<bv8>, c: seq<bv8>, m: seq<bv8>, chain: seq<bv8>)
    requires Decrypted(rks, iv, c, |c|, m, chain)
    ensures |iv| == 16 && |c| % 16 == 0 && m == CbcDecrypt(rks, iv, c) && chain == NextIv(iv, c)
  {
    assert c[..|c|] == c;
  }
}
