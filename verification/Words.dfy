/** 32-bit big-endian words and rotations, shared by SM3 and SM4 (`unsigned long` is 32 bits wide on Win32). */
module Words {

  const TWO_32: nat := 0x1_0000_0000
  const TWO_64: nat := 0x1_0000_0000_0000_0000
  const INT_MAX: nat := 0x7FFF_FFFF
  const INT_MIN: int := -0x8000_0000

  /** A number converted to a signed 32-bit integer. */
  function ToInt(n: int): (r: int)
    ensures INT_MIN <= r <= INT_MAX && (r - n) % TWO_32 == 0
    ensures n >= 0 ==> r <= n
  {
    (n + 0x8000_0000) % TWO_32 - 0x8000_0000
  }

  /** PUT_ULONG_BE: the four bytes of a word, most significant first. */
  function Be32(w: bv32): (r: seq<bv8>)
    ensures |r| == 4
  {
    [((w >> 24) & 0xFF) as bv8, ((w >> 16) & 0xFF) as bv8, ((w >> 8) & 0xFF) as bv8, (w & 0xFF) as bv8]
  }

  /** Two words given as numbers, big-endian. */
  function Be64(high: nat, low: nat): (r: seq<bv8>)
    requires high < TWO_32 && low < TWO_32
    ensures |r| == 8
  {
    Be32(high as bv32) + Be32(low as bv32)
  }

  /** GET_ULONG_BE: the word stored big-endian in `b` at offset `i`. */
  function Word(b: seq<bv8>, i: nat): bv32
    requires i + 4 <= |b|
  {
    ((b[i] as bv32) << 24) | ((b[i + 1] as bv32) << 16) | ((b[i + 2] as bv32) << 8) | (b[i + 3] as bv32)
  }

  // The word operations by name, so that a proof can treat them as uninterpreted.

  function Xor(x: bv32, y: bv32): bv32 { x ^ y }

  function Add(x: bv32, y: bv32): bv32 { x + y }

  lemma XorAssociates(x: bv32, y: bv32, z: bv32)
    ensures Xor(x, Xor(y, z)) == Xor(Xor(x, y), z)
  {
  }

  lemma XorCommutes(x: bv32, y: bv32)
    ensures Xor(x, y) == Xor(y, x)
  {
  }

  /** XOR with the same word twice changes nothing. */
  lemma XorCancels(x: bv32, y: bv32)
    ensures Xor(Xor(x, y), y) == x
  {
  }

  function Rotl(x: bv32, n: nat): bv32
    requires n <= 32
  {
    (x << n) | (x >> (32 - n))
  }

  lemma WordOfBe32(w: bv32)
    ensures Word(Be32(w), 0) == w
  {
  }

  lemma BytesOfWord(a: bv8, b: bv8, c: bv8, d: bv8)
    ensures Be32(Word([a, b, c, d], 0)) == [a, b, c, d]
  {
  }

  lemma Be32OfWord(b: seq<bv8>, i: nat)
    requires i + 4 <= |b|
    ensures Be32(Word(b, i)) == b[i..i + 4]
  {
    BytesOfWord(b[i], b[i + 1], b[i + 2], b[i + 3]);
    assert b[i..i + 4] == [b[i], b[i + 1], b[i + 2], b[i + 3]];
  }

  /** Reading a word inside a concatenation only sees the part that holds it. */
  lemma WordInMiddle(a: seq<bv8>, w: bv32, c: seq<bv8>)
    ensures Word(a + Be32(w) + c, |a|) == w
  {
    var s := a + Be32(w) + c;
    assert s[|a|] == Be32(w)[0] && s[|a| + 1] == Be32(w)[1] && s[|a| + 2] == Be32(w)[2] && s[|a| + 3] == Be32(w)[3];
    WordOfBe32(w);
  }
}
