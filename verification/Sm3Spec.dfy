/** The SM3 hash as GM/T 0004-2012 defines it: one message in, one digest out. */
module Sm3Spec {
  import opened Words
  import opened Blocks

  datatype Regs = Regs(a: bv32, b: bv32, c: bv32, d: bv32, e: bv32, f: bv32, g: bv32, h: bv32)

  const IV: Regs := Regs(0x7380166F, 0x4914B2B9, 0x172442D7, 0xDA8A0600, 0xA96F30BC, 0x163138AA, 0xE38DEE4D, 0xB0FB0E4E)

  // ----- boolean functions, permutations and constants (section 4) -----

  function FF(j: nat, x: bv32, y: bv32, z: bv32): bv32 {
    if j < 16 then x ^ y ^ z else (x & y) | (x & z) | (y & z)
  }

  function GG(j: nat, x: bv32, y: bv32, z: bv32): bv32 {
    if j < 16 then x ^ y ^ z else (x & y) | (!x & z)
  }

  function P0(x: bv32): bv32 {
    Xor(Xor(x, Rotl(x, 9)), Rotl(x, 17))
  }

  function P1(x: bv32): bv32 {
    Xor(Xor(x, Rotl(x, 15)), Rotl(x, 23))
  }

  function T(j: nat): bv32 {
    if j < 16 then 0x79CC4519 else 0x7A879D8A
  }

  // ----- compression (section 5.3) -----

  /** The j-th word of the message expansion of one 64-byte block. */
  ghost function Expanded(block: seq<bv8>, j: nat): bv32
    requires |block| == 64
  {
    if j < 16 then Word(block, 4 * j)
    else
      var mixed := P1(Xor(Xor(Expanded(block, j - 16), Expanded(block, j - 9)), Rotl(Expanded(block, j - 3), 15)));
      Xor(Xor(mixed, Rotl(Expanded(block, j - 13), 7)), Expanded(block, j - 6))
  }

  ghost function Round(j: nat, r: Regs, w: bv32, w1: bv32): Regs {
    var ss1 := Rotl(Add(Add(Rotl(r.a, 12), r.e), Rotl(T(j), j % 32)), 7);
    var ss2 := Xor(ss1, Rotl(r.a, 12));
    var tt1 := Add(Add(Add(FF(j, r.a, r.b, r.c), r.d), ss2), w1);
    var tt2 := Add(Add(Add(GG(j, r.e, r.f, r.g), r.h), ss1), w);
    Regs(tt1, r.a, Rotl(r.b, 9), r.c, P0(tt2), r.e, Rotl(r.f, 19), r.g)
  }

  /** The registers after the first `n` rounds on `block`. */
  ghost function Rounds(n: nat, v: Regs, block: seq<bv8>): Regs
    requires |block| == 64
  {
    if n == 0 then v
    else
      Round(n - 1, Rounds(n - 1, v, block), Expanded(block, n - 1), Xor(Expanded(block, n - 1), Expanded(block, n + 3)))
  }

  ghost function Compress(v: Regs, block: Block): Regs
  {
    var r := Rounds(|block|, v, block);
    Regs(Xor(v.a, r.a), Xor(v.b, r.b), Xor(v.c, r.c), Xor(v.d, r.d),
         Xor(v.e, r.e), Xor(v.f, r.f), Xor(v.g, r.g), Xor(v.h, r.h))
  }

  // ----- padding (section 5.2) and the digest -----

  /** The message length in bits as 64 bits, big-endian. */
  function LengthField(bytes: nat): (r: seq<bv8>)
    ensures |r| == 8
  {
    var bits := 8 * bytes % TWO_64;
    Be64(bits / TWO_32, bits % TWO_32)
  }

  function Pad(m: seq<bv8>): (r: seq<bv8>)
    ensures |r| % 64 == 0 && |r| <= |m| + 72 && m <= r
  {
    m + [0x80] + Zeros(ZeroCount(|m|)) + LengthField(|m|)
  }

  function Output(r: Regs): (o: seq<bv8>)
    ensures |o| == 32
  {
    Be32(r.a) + Be32(r.b) + Be32(r.c) + Be32(r.d) + Be32(r.e) + Be32(r.f) + Be32(r.g) + Be32(r.h)
  }

  ghost function Sm3(m: seq<bv8>): (digest: seq<bv8>)
    ensures |digest| == 32
  {
    Output(Fold(Compress, IV, Pad(m)))
  }

  // ----- HMAC over SM3 (section 2 of RFC 2104) -----

  /** The key as a whole block: hashed first when longer than a block, then zero-filled. */
  ghost function HmacKeyBlock(key: seq<bv8>): (k: seq<bv8>)
    ensures |k| == 64
  {
    var short := if |key| > 64 then Sm3(key) else key;
    short + Zeros(64 - |short|)
  }

  function XorAll(k: seq<bv8>, c: bv8): (r: seq<bv8>)
    ensures |r| == |k| && forall i :: 0 <= i < |k| ==> r[i] == c ^ k[i]
  {
    seq(|k|, i requires 0 <= i < |k| => c ^ k[i])
  }

  ghost function Hmac(key: seq<bv8>, text: seq<bv8>): (mac: seq<bv8>)
    ensures |mac| == 32
  {
    var k := HmacKeyBlock(key);
    Sm3(XorAll(k, 0x5C) + Sm3(XorAll(k, 0x36) + text))
  }
}
