/** The SM4 routines of sm4.cpp on arrays: key schedules, the block routine, and the ECB and CBC loops. */
module Sm4 {
  import opened Words
  import opened Feistel
  import opened Sm4Spec
  import opened Sm4Modes

  const SM4_ENCRYPT: int := 1

  /** `input + off` and `output + off` of the C calls: 16 bytes that lie in the array. */
  ghost predicate Window(a: array<bv8>, off: nat, n: nat) {
    off + n <= a.Length
  }

  /** Going forward, no byte is written before it is read: the output window is elsewhere or not ahead of the input. */
  ghost predicate NotAhead(input: array<bv8>, inOff: nat, output: array<bv8>, outOff: nat, n: nat) {
    input != output || outOff <= inOff || inOff + n <= outOff
  }

  /** Outside `[off, off + n)` the array holds what it held before. */
  twostate predicate OnlyWindowChanged(a: array<bv8>, off: nat, n: nat)
    reads a
  {
    forall k :: 0 <= k < a.Length && !(off <= k < off + n) ==> a[k] == old(a[k])
  }

  /** PUT_ULONG_BE into an array, behind the bytes from `start` on. */
  method PutWord(w: bv32, output: array<bv8>, start: nat, off: nat)
    requires start <= off && Window(output, off, 4)
    modifies output
    ensures output[start..off + 4] == old(output[start..off]) + Be32(w)
    ensures OnlyWindowChanged(output, off, 4)
  {
    hide Be32;
    var b := Be32(w);
    output[off], output[off + 1], output[off + 2], output[off + 3] := b[0], b[1], b[2], b[3];
  }

  /** The four PUT_ULONG_BE calls that end `sm4_one_round`. */
  method PutBlock(q: Quad, output: array<bv8>, off: nat)
    requires Window(output, off, 16)
    modifies output
    ensures output[off..off + 16] == Store(q)
    ensures OnlyWindowChanged(output, off, 16)
  {
    hide Be32;
    PutWord(q.x0, output, off, off);
    PutWord(q.x1, output, off, off + 4);
    PutWord(q.x2, output, off, off + 8);
    PutWord(q.x3, output, off, off + 12);
  }

  lemma TraceStart(ck: seq<bv32>, start: Quad)
    ensures ck[..0] == [] && Trace(CalciRK, ck[..0], start) == [start.x0, start.x1, start.x2, start.x3]
  {
    hide CalciRK;
  }

  /** The next word of the schedule from its last four. */
  lemma TraceGrows(ck: seq<bv32>, start: Quad, i: nat, w: seq<bv32>)
    requires i < |ck| && w == Trace(CalciRK, ck[..i], start)
    ensures |w| == i + 4
    ensures w + [Xor(w[i], CalciRK(Xor(Xor(Xor(w[i + 1], w[i + 2]), w[i + 3]), ck[i])))]
         == Trace(CalciRK, ck[..i + 1], start)
  {
    hide Xor, CalciRK, Run;
    assert ck[..i + 1][..i] == ck[..i];
  }

  /** The loop of `sm4_setkey`, over the fixed parameters `ck`. */
  method KeyLoop(sk: array<bv32>, k: array<bv32>, ck: seq<bv32>, ghost start: Quad)
    requires sk.Length == 32 && k.Length == 36 && |ck| == 32 && sk != k
    requires Quad(k[0], k[1], k[2], k[3]) == start
    modifies sk, k
    ensures sk[..] == Trace(CalciRK, ck, start)[4..]
  {
    hide Xor, CalciRK, Run, Trace, NewWord;
    TraceStart(ck, start);
    assert k[..4] == [start.x0, start.x1, start.x2, start.x3];
    for i := 0 to 32
      invariant k[..i + 4] == Trace(CalciRK, ck[..i], start)
      invariant sk[..i] == k[4..i + 4]
    {
      ghost var w := k[..i + 4];
      TraceGrows(ck, start, i, w);
      assert w[i] == k[i] && w[i + 1] == k[i + 1] && w[i + 2] == k[i + 2] && w[i + 3] == k[i + 3];
      k[i + 4] := Xor(k[i], CalciRK(Xor(Xor(Xor(k[i + 1], k[i + 2]), k[i + 3]), ck[i])));
      sk[i] := k[i + 4];
      assert k[..i + 4] == w && k[..i + 5] == w + [k[i + 4]];
    }
    assert ck[..32] == ck && k[..36] == k[..] && sk[..32] == sk[..];
  }

  /** `sm4_setkey` */
  method SetKey(sk: array<bv32>, key: seq<bv8>)
    requires sk.Length == 32 && |key| == 16
    modifies sk
    ensures sk[..] == RoundKeys(key)
  {
    hide Word, Xor;
    TableSizes();
    var k := new bv32[36];
    k[0], k[1] := Xor(Word(key, 0), FK[0]), Xor(Word(key, 4), FK[1]);
    k[2], k[3] := Xor(Word(key, 8), FK[2]), Xor(Word(key, 12), FK[3]);
    KeyLoop(sk, k, CK, Masked(key));
  }

  /** `sm4_one_round`: all 32 rounds on one block; input and output may overlap in any way. */
  method OneRound(sk: array<bv32>, input: array<bv8>, inOff: nat, output: array<bv8>, outOff: nat)
    requires sk.Length == 32 && Window(input, inOff, 16) && Window(output, outOff, 16)
    modifies output
    ensures output[outOff..outOff + 16] == CryptBlock(sk[..], old(input[inOff..inOff + 16]))
    ensures OnlyWindowChanged(output, outOff, 16)
  {
    hide Load, Store, Run;
    var x := Rounds(sk, input, inOff);
    PutBlock(Quad(x[35], x[34], x[33], x[32]), output, outOff);
    assert sk[..] == old(sk[..]);
  }

  /** The loop of `sm4_one_round` over `ulbuf`. */
  method Rounds(sk: array<bv32>, input: array<bv8>, inOff: nat) returns (ulbuf: array<bv32>)
    requires sk.Length == 32 && Window(input, inOff, 16)
    ensures fresh(ulbuf) && ulbuf.Length == 36
    ensures Quad(ulbuf[32], ulbuf[33], ulbuf[34], ulbuf[35]) == Run(Lt, sk[..], Load(input[inOff..inOff + 16]))
  {
    hide Word, Xor, Lt;
    ulbuf := new bv32[36];
    var b := input[inOff..inOff + 16];
    ulbuf[0], ulbuf[1], ulbuf[2], ulbuf[3] := Word(b, 0), Word(b, 4), Word(b, 8), Word(b, 12);
    var i := 0;
    while i < 32
      invariant 0 <= i <= 32
      invariant Quad(ulbuf[i], ulbuf[i + 1], ulbuf[i + 2], ulbuf[i + 3]) == Run(Lt, sk[..i], Load(b))
    {
      assert sk[..i + 1][..i] == sk[..i];
      ulbuf[i + 4] := Xor(ulbuf[i], Lt(Xor(Xor(Xor(ulbuf[i + 1], ulbuf[i + 2]), ulbuf[i + 3]), sk[i])));
      i := i + 1;
    }
    assert sk[..32] == sk[..];
  }

  lemma NextSlice(s: seq<bv8>, p: nat)
    requires p + 16 <= |s|
    ensures s[p..][..16] == s[p..p + 16] && s[p..][16..] == s[p + 16..]
  {
  }

  /** `p` bytes of `src` are encrypted to `done`, the others are `rest`. */
  ghost predicate Enciphered(rks: seq<bv32>, src: seq<bv8>, p: nat, done: seq<bv8>, rest: seq<bv8>) {
    p <= |src| && p % 16 == 0 && done == Ecb(rks, src[..p]) && rest == src[p..]
  }

  lemma EncipheredNothing(rks: seq<bv32>, src: seq<bv8>)
    ensures Enciphered(rks, src, 0, [], src)
  {
    NothingDone(rks, src);
  }

  lemma EncipheredGrows(rks: seq<bv32>, src: seq<bv8>, p: nat, done: seq<bv8>, rest: seq<bv8>)
    requires Enciphered(rks, src, p, done, rest) && p + 16 <= |src|
    ensures |rest| == |src| - p
    ensures Enciphered(rks, src, p + 16, done + CryptBlock(rks, rest[..16]), rest[16..])
  {
    hide CryptBlock, Ecb;
    EcbGrows(rks, src, p);
    NextSlice(src, p);
    assert src[p..][16..] == src[p + 16..];
  }

  lemma EncipheredAll(rks: seq<bv32>, src: seq<bv8>, done: seq<bv8>, rest: seq<bv8>)
    requires Enciphered(rks, src, |src|, done, rest)
    ensures done == Ecb(rks, src)
  {
    assert src[..|src|] == src;
  }

  /** `sm4_context` */
  class Sm4Context {
    var mode: int
    const sk: array<bv32>

    ghost predicate Shape()
      reads this
    {
      sk.Length == 32
    }

    constructor ()
      ensures Shape() && fresh(sk)
    {
      mode := SM4_ENCRYPT;
      sk := new bv32[32];
    }

    /** `sm4_setkey_enc` */
    method SetKeyEnc(key: seq<bv8>)
      requires Shape() && |key| == 16
      modifies this, sk
      ensures mode == 1 && sk[..] == RoundKeys(key)
    {
      hide RoundKeys;
      mode := SM4_ENCRYPT;
      SetKey(sk, key);
    }

    /** `sm4_setkey_dec`: the same schedule, swapped end for end in place; `mode` is set to encrypt here too. */
    method SetKeyDec(key: seq<bv8>)
      requires Shape() && |key| == 16
      modifies this, sk
      ensures mode == 1 && sk[..] == Reverse(RoundKeys(key))
    {
      hide RoundKeys;
      mode := SM4_ENCRYPT;
      SetKey(sk, key);
      ghost var k := sk[..];
      for i := 0 to 16
        modifies sk
        invariant forall j :: 0 <= j < i ==> sk[j] == k[31 - j] && sk[31 - j] == k[j]
        invariant forall j :: i <= j < 32 - i ==> sk[j] == k[j]
      {
        sk[i], sk[31 - i] := sk[31 - i], sk[i];
      }
      assert forall j :: 0 <= j < 32 ==> sk[j] == k[31 - j];
    }

    /** How many bytes the `while( length > 0 )` loops go over: whole blocks, the last one in full. */
    static function Span(length: int): (n: nat)
      ensures n % 16 == 0 && length <= n
    {
      if length <= 0 then 0 else (length + 15) / 16 * 16
    }

    /** One iteration of `sm4_crypt_ecb`: `p` bytes of `src` are done, the rest is still in the input. */
    method EcbStep(input: array<bv8>, inOff: nat, output: array<bv8>, outOff: nat, p: nat, ghost src: seq<bv8>)
      requires Shape() && Window(input, inOff, |src|) && Window(output, outOff, |src|)
      requires NotAhead(input, inOff, output, outOff, |src|)
      requires p + 16 <= |src|
      requires Enciphered(sk[..], src, p, output[outOff..outOff + p], input[inOff + p..inOff + |src|])
      modifies output
      ensures Enciphered(sk[..], src, p + 16, output[outOff..outOff + p + 16], input[inOff + p + 16..inOff + |src|])
      ensures OnlyWindowChanged(output, outOff, |src|)
    {
      hide CryptBlock, Ecb, Enciphered;
      ghost var done, rest := output[outOff..outOff + p], input[inOff + p..inOff + |src|];
      EncipheredGrows(sk[..], src, p, done, rest);
      assert input[inOff + p..inOff + p + 16] == rest[..16];
      OneRound(sk, input, inOff + p, output, outOff + p);
      assert output[outOff..outOff + p + 16] == done + output[outOff + p..outOff + p + 16];
      assert input[inOff + p + 16..inOff + |src|] == rest[16..];
    }

    /** `sm4_crypt_ecb`; input and output may be windows of one array, the same or overlapping, see NotAhead. */
    method CryptEcb(length: int, input: array<bv8>, inOff: nat, output: array<bv8>, outOff: nat)
      requires Shape() && Window(input, inOff, Span(length)) && Window(output, outOff, Span(length))
      requires NotAhead(input, inOff, output, outOff, Span(length))
      modifies output
      ensures output[outOff..outOff + Span(length)] == Ecb(sk[..], old(input[inOff..inOff + Span(length)]))
      ensures OnlyWindowChanged(output, outOff, Span(length))
    {
      hide CryptBlock, Ecb, Enciphered;
      ghost var n := Span(length);
      ghost var src := input[inOff..inOff + n];
      var p := 0;
      EncipheredNothing(sk[..], src);
      assert output[outOff..outOff + p] == [] && input[inOff + p..inOff + n] == src;
      while length - p > 0
        invariant 0 <= p <= n && p % 16 == 0
        invariant Enciphered(sk[..], src, p, output[outOff..outOff + p], input[inOff + p..inOff + n])
        invariant OnlyWindowChanged(output, outOff, n)
      {
        EcbStep(input, inOff, output, outOff, p, src);
        p := p + 16;
      }
      EncipheredAll(sk[..], src, output[outOff..outOff + n], input[inOff + n..inOff + n]);
    }

    /** `sm_crypt_ecb_16` */
    method CryptEcb16(length: nat, input: array<bv8>, output: array<bv8>)
      requires Shape() && Window(input, 0, length) && Window(output, 0, length)
      modifies output
      ensures output[..length] == EcbTail(sk[..], old(input[..length]))
      ensures OnlyWindowChanged(output, 0, length)
    {
      hide Ecb;
      var ilen := length / 16 * 16;
      assert Span(ilen) == ilen == Whole(length);
      ghost var src := input[..length];
      assert input[0..0 + ilen] == src[..ilen];
      CryptEcb(ilen, input, 0, output, 0);
      ghost var whole := output[..ilen];
      assert input[ilen..length] == src[ilen..];
      CopyTail(input, output, ilen, length);
      assert output[..length] == whole + src[ilen..];
      assert sk[..] == old(sk[..]);
    }

    /** The `memcpy` of the bytes that make no whole block. */
    method CopyTail(input: array<bv8>, output: array<bv8>, from: nat, to: nat)
      requires from <= to <= input.Length && to <= output.Length
      modifies output
      ensures output[from..to] == old(input[from..to])
      ensures forall i :: 0 <= i < output.Length && !(from <= i < to) ==> output[i] == old(output[i])
    {
      forall i | from <= i < to {
        output[i] := input[i];
      }
    }

    /** The body of the encrypting loop of `sm4_crypt_cbc`. */
    method CbcEncryptAt(iv: array<bv8>, input: array<bv8>, inOff: nat, output: array<bv8>, outOff: nat)
      requires Shape() && Window(input, inOff, 16) && Window(output, outOff, 16)
      requires iv.Length == 16 && iv != input && iv != output
      requires NotAhead(input, inOff, output, outOff, 16)
      modifies iv, output
      ensures output[outOff..outOff + 16] == CryptBlock(sk[..], XorBlock(old(input[inOff..inOff + 16]), old(iv[..])))
      ensures iv[..] == output[outOff..outOff + 16]
      ensures OnlyWindowChanged(output, outOff, 16)
    {
      hide CryptBlock;
      ghost var mixed := XorBlock(input[inOff..inOff + 16], iv[..]);
      forall i | 0 <= i < 16 {
        output[outOff + i] := input[inOff + i] ^ iv[i];
      }
      assert output[outOff..outOff + 16] == mixed;
      OneRound(sk, output, outOff, output, outOff);
      ghost var block := output[outOff..outOff + 16];
      assert sk[..] == old(sk[..]) && block == CryptBlock(sk[..], mixed);
      forall i | 0 <= i < 16 {
        iv[i] := output[outOff + i];
      }
      assert iv[..] == block && output[outOff..outOff + 16] == block && sk[..] == old(sk[..]);
    }

    /** The body of the decrypting loop of `sm4_crypt_cbc`. */
    method CbcDecryptAt(iv: array<bv8>, input: array<bv8>, inOff: nat, output: array<bv8>, outOff: nat)
      requires Shape() && Window(input, inOff, 16) && Window(output, outOff, 16)
      requires iv.Length == 16 && iv != input && iv != output
      requires NotAhead(input, inOff, output, outOff, 16)
      modifies iv, output
      ensures output[outOff..outOff + 16] == XorBlock(CryptBlock(sk[..], old(input[inOff..inOff + 16])), old(iv[..]))
      ensures iv[..] == old(input[inOff..inOff + 16])
      ensures OnlyWindowChanged(output, outOff, 16)
    {
      hide CryptBlock;
      var temp := input[inOff..inOff + 16];
      OneRound(sk, input, inOff, output, outOff);
      ghost var plain := output[outOff..outOff + 16];
      forall i | 0 <= i < 16 {
        output[outOff + i] := output[outOff + i] ^ iv[i];
      }
      assert output[outOff..outOff + 16] == XorBlock(plain, iv[..]);
      forall i | 0 <= i < 16 {
        iv[i] := temp[i];
      }
      assert sk[..] == old(sk[..]);
    }

    /** One iteration of the encrypting loop: `p` bytes of `src` are done, the rest is still in the input. */
    method CbcEncryptStep(iv: array<bv8>, input: array<bv8>, inOff: nat, output: array<bv8>, outOff: nat, p: nat,
                          ghost iv0: seq<bv8>, ghost src: seq<bv8>)
      requires Shape() && Window(input, inOff, |src|) && Window(output, outOff, |src|)
      requires iv.Length == 16 && iv != input && iv != output
      requires NotAhead(input, inOff, output, outOff, |src|)
      requires p + 16 <= |src|
      requires Encrypted(sk[..], iv0, src, p, output[outOff..outOff + p], iv[..])
      requires input[inOff + p..inOff + |src|] == src[p..]
      modifies iv, output
      ensures Encrypted(sk[..], iv0, src, p + 16, output[outOff..outOff + p + 16], iv[..])
      ensures input[inOff + p + 16..inOff + |src|] == src[p + 16..]
      ensures OnlyWindowChanged(output, outOff, |src|)
    {
      hide CryptBlock, XorBlock, Encrypted;
      ghost var done, chain, rks := output[outOff..outOff + p], iv[..], sk[..];
      NextSlice(src, p);
      assert input[inOff + p..inOff + p + 16] == src[p..p + 16];
      EncryptedGrows(rks, iv0, src, p, done, chain);
      ghost var rest := input[inOff + p + 16..inOff + |src|];
      assert rest == src[p..][16..] == src[p + 16..];
      CbcEncryptAt(iv, input, inOff + p, output, outOff + p);
      assert input[inOff + p + 16..inOff + |src|] == rest;
      assert sk[..] == rks;
      assert output[outOff..outOff + p + 16] == done + output[outOff + p..outOff + p + 16];
    }

    /** The encrypting loop of `sm4_crypt_cbc`. */
    method CbcEncryptLoop(length: int, iv: array<bv8>, input: array<bv8>, inOff: nat, output: array<bv8>, outOff: nat)
      requires Shape() && Window(input, inOff, Span(length)) && Window(output, outOff, Span(length))
      requires iv.Length == 16 && iv != input && iv != output
      requires NotAhead(input, inOff, output, outOff, Span(length))
      modifies iv, output
      ensures OnlyWindowChanged(output, outOff, Span(length))
      ensures Encrypted(sk[..], old(iv[..]), old(input[inOff..inOff + Span(length)]), Span(length),
                        output[outOff..outOff + Span(length)], iv[..])
    {
      hide CryptBlock, XorBlock, Encrypted;
      ghost var n, rks := Span(length), sk[..];
      ghost var src, iv0 := input[inOff..inOff + n], iv[..];
      EncryptedStart(rks, iv0, src);
      assert output[outOff..outOff + 0] == [];
      var p := 0;
      while length - p > 0
        invariant 0 <= p <= n && p % 16 == 0
        invariant Encrypted(rks, iv0, src, p, output[outOff..outOff + p], iv[..])
        invariant input[inOff + p..inOff + n] == src[p..]
        invariant OnlyWindowChanged(output, outOff, n)
      {
        CbcEncryptStep(iv, input, inOff, output, outOff, p, iv0, src);
        p := p + 16;
      }
    }

    /** One iteration of the decrypting loop: `p` bytes of `src` are done, the rest is still in the input. */
    method CbcDecryptStep(iv: array<bv8>, input: array<bv8>, inOff: nat, output: array<bv8>, outOff: nat, p: nat,
                          ghost iv0: seq<bv8>, ghost src: seq<bv8>)
      requires Shape() && Window(input, inOff, |src|) && Window(output, outOff, |src|)
      requires iv.Length == 16 && iv != input && iv != output
      requires NotAhead(input, inOff, output, outOff, |src|)
      requires p + 16 <= |src|
      requires Decrypted(sk[..], iv0, src, p, output[outOff..outOff + p], iv[..])
      requires input[inOff + p..inOff + |src|] == src[p..]
      modifies iv, output
      ensures Decrypted(sk[..], iv0, src, p + 16, output[outOff..outOff + p + 16], iv[..])
      ensures input[inOff + p + 16..inOff + |src|] == src[p + 16..]
      ensures OnlyWindowChanged(output, outOff, |src|)
    {
      hide CryptBlock, XorBlock, Decrypted;
      ghost var done, chain, rks := output[outOff..outOff + p], iv[..], sk[..];
      NextSlice(src, p);
      assert input[inOff + p..inOff + p + 16] == src[p..p + 16];
      DecryptedGrows(rks, iv0, src, p, done, chain);
      ghost var rest := input[inOff + p + 16..inOff + |src|];
      assert rest == src[p..][16..] == src[p + 16..];
      CbcDecryptAt(iv, input, inOff + p, output, outOff + p);
      assert input[inOff + p + 16..inOff + |src|] == rest;
      assert sk[..] == rks;
      assert output[outOff..outOff + p + 16] == done + output[outOff + p..outOff + p + 16];
    }

    /** The decrypting loop of `sm4_crypt_cbc`. */
    method CbcDecryptLoop(length: int, iv: array<bv8>, input: array<bv8>, inOff: nat, output: array<bv8>, outOff: nat)
      requires Shape() && Window(input, inOff, Span(length)) && Window(output, outOff, Span(length))
      requires iv.Length == 16 && iv != input && iv != output
      requires NotAhead(input, inOff, output, outOff, Span(length))
      modifies iv, output
      ensures OnlyWindowChanged(output, outOff, Span(length))
      ensures Decrypted(sk[..], old(iv[..]), old(input[inOff..inOff + Span(length)]), Span(length),
                        output[outOff..outOff + Span(length)], iv[..])
    {
      hide CryptBlock, XorBlock, Decrypted;
      ghost var n, rks := Span(length), sk[..];
      ghost var src, iv0 := input[inOff..inOff + n], iv[..];
      DecryptedStart(rks, iv0, src);
      assert output[outOff..outOff + 0] == [];
      var p := 0;
      while length - p > 0
        invariant 0 <= p <= n && p % 16 == 0
        invariant Decrypted(rks, iv0, src, p, output[outOff..outOff + p], iv[..])
        invariant input[inOff + p..inOff + n] == src[p..]
        invariant OnlyWindowChanged(output, outOff, n)
      {
        CbcDecryptStep(iv, input, inOff, output, outOff, p, iv0, src);
        p := p + 16;
      }
    }

    /** `sm4_crypt_cbc`: any mode but 1 decrypts; `iv` is left ready for the next call. */
    method CryptCbc(cbcMode: int, length: int, iv: array<bv8>, input: array<bv8>, inOff: nat, output: array<bv8>,
                    outOff: nat)
      requires Shape() && Window(input, inOff, Span(length)) && Window(output, outOff, Span(length))
      requires iv.Length == 16 && iv != input && iv != output
      requires NotAhead(input, inOff, output, outOff, Span(length))
      modifies iv, output
      ensures OnlyWindowChanged(output, outOff, Span(length))
      ensures var src := old(input[inOff..inOff + Span(length)]);
              var iv0 := old(iv[..]);
              var dst := output[outOff..outOff + Span(length)];
              if cbcMode == 1 then dst == CbcEncrypt(sk[..], iv0, src) && iv[..] == NextIv(iv0, dst)
              else dst == CbcDecrypt(sk[..], iv0, src) && iv[..] == NextIv(iv0, src)
    {
      hide Encrypted, Decrypted, CbcEncrypt, CbcDecrypt, NextIv;
      ghost var n, rks := Span(length), sk[..];
      ghost var src, iv0 := input[inOff..inOff + n], iv[..];
      if cbcMode == SM4_ENCRYPT {
        CbcEncryptLoop(length, iv, input, inOff, output, outOff);
        EncryptedAll(rks, iv0, src, output[outOff..outOff + n], iv[..]);
      } else {
        CbcDecryptLoop(length, iv, input, inOff, output, outOff);
        DecryptedAll(rks, iv0, src, output[outOff..outOff + n], iv[..]);
      }
      assert sk[..] == rks;
    }
  }
}
