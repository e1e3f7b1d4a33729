/** The streaming SM3 context and HMAC of sm3.cpp, proved against the one-message hash. */
module Sm3Stream {
  import opened Words
  import opened Blocks
  import opened Sm3Spec

  /** The eight registers held in `state[8]`. */
  ghost function RegsOf(s: seq<bv32>): Regs
    requires |s| == 8
  {
    Regs(s[0], s[1], s[2], s[3], s[4], s[5], s[6], s[7])
  }

  /** The registers are the iteration of section 5.3.1 over the whole blocks `done`. */
  ghost predicate Iterated(regs: seq<bv32>, done: seq<bv8>) {
    |regs| == 8 && |done| % 64 == 0 && RegsOf(regs) == Fold(Compress, IV, done)
  }

  lemma IteratedWhole(regs: seq<bv32>, done: seq<bv8>)
    requires Iterated(regs, done)
    ensures |done| % 64 == 0
  {
  }

  lemma IterateBlock(old_regs: seq<bv32>, regs: seq<bv32>, done: seq<bv8>, block: seq<bv8>)
    requires |regs| == 8 && |block| == 64 && Iterated(old_regs, done)
    requires RegsOf(regs) == Compress(RegsOf(old_regs), block)
    ensures Iterated(regs, done + block)
  {
    hide Compress, RegsOf;
    FoldBlock(Compress, IV, done, block);
  }

  /** The first part of `sm3_process`: the expanded words `W` and `W1` of one block. */
  method ExpandMessage(data: seq<bv8>) returns (w: array<bv32>, w1: array<bv32>)
    requires |data| == 64
    ensures fresh(w) && fresh(w1) && w.Length == 68 && w1.Length == 64
    ensures forall i :: 0 <= i < 68 ==> w[i] == Expanded(data, i)
    ensures forall i :: 0 <= i < 64 ==> w1[i] == Xor(Expanded(data, i), Expanded(data, i + 4))
  {
    hide Xor, Rotl, P1, Word, NextWord, Expanded;
    w := new bv32[68];
    for j := 0 to 16
      invariant forall i :: 0 <= i < j ==> w[i] == Expanded(data, i)
    {
      ExpandedWord(data, j);
      w[j] := Word(data, 4 * j);
    }
    for j := 16 to 68
      invariant forall i :: 0 <= i < j ==> w[i] == Expanded(data, i)
    {
      ExpandedStep(data, j);
      w[j] := NextWord(w[j - 16], w[j - 13], w[j - 9], w[j - 6], w[j - 3]);
    }
    w1 := new bv32[64];
    for j := 0 to 64
      invariant forall i :: 0 <= i < 68 ==> w[i] == Expanded(data, i)
      invariant forall i :: 0 <= i < j ==> w1[i] == Xor(Expanded(data, i), Expanded(data, i + 4))
    {
      w1[j] := Xor(w[j], w[j + 4]);
    }
  }

  lemma ExpandedWord(data: seq<bv8>, j: nat)
    requires |data| == 64 && j < 16
    ensures Expanded(data, j) == Word(data, 4 * j)
  {
    hide Word;
  }

  lemma ExpandedStep(data: seq<bv8>, j: nat)
    requires |data| == 64 && j >= 16
    ensures Expanded(data, j)
         == NextWord(Expanded(data, j - 16), Expanded(data, j - 13), Expanded(data, j - 9), Expanded(data, j - 6),
                     Expanded(data, j - 3))
  {
    hide Xor, Rotl, P1, Word, NextWord;
  }

  /** One expansion step as the code groups it; the standard groups the same terms from the left. */
  function NextWord(w16: bv32, w13: bv32, w9: bv32, w6: bv32, w3: bv32): (r: bv32)
    ensures r == Xor(Xor(P1(Xor(Xor(w16, w9), Rotl(w3, 15))), Rotl(w13, 7)), w6)
  {
    hide Xor, Rotl, P1;
    var temp1 := Xor(w16, w9);
    var temp2 := Rotl(w3, 15);
    var temp3 := Xor(temp1, temp2);
    var temp4 := P1(temp3);
    var temp5 := Xor(Rotl(w13, 7), w6);
    XorAssociates(temp4, Rotl(w13, 7), w6);
    Xor(temp4, temp5)
  }

  /** The register loop of `sm3_process`. */
  method MixRegisters(v: Regs, ghost data: seq<bv8>, w: array<bv32>, w1: array<bv32>) returns (r: Regs)
    requires |data| == 64 && w.Length == 68 && w1.Length == 64
    requires forall i :: 0 <= i < 68 ==> w[i] == Expanded(data, i)
    requires forall i :: 0 <= i < 64 ==> w1[i] == Xor(Expanded(data, i), Expanded(data, i + 4))
    ensures r == Rounds(64, v, data)
  {
    hide Xor, Add, Rotl, FF, GG, P0, P1, T, Expanded;
    var a, b, c, d, e, f, g, h := v.a, v.b, v.c, v.d, v.e, v.f, v.g, v.h;
    var j := 0;
    while j < w1.Length
      invariant 0 <= j <= 64
      invariant Regs(a, b, c, d, e, f, g, h) == Rounds(j, v, data)
    {
      var ss1 := Rotl(Add(Add(Rotl(a, 12), e), Rotl(T(j), j % 32)), 7);
      var ss2 := Xor(ss1, Rotl(a, 12));
      var tt1 := Add(Add(Add(FF(j, a, b, c), d), ss2), w1[j]);
      var tt2 := Add(Add(Add(GG(j, e, f, g), h), ss1), w[j]);
      assert Regs(tt1, a, Rotl(b, 9), c, P0(tt2), e, Rotl(f, 19), g) == Round(j, Rounds(j, v, data), w[j], w1[j]);
      d, c, b, a := c, Rotl(b, 9), a, tt1;
      h, g, f, e := g, Rotl(f, 19), e, P0(tt2);
      j := j + 1;
    }
    r := Regs(a, b, c, d, e, f, g, h);
  }

  /** `sm3_process`: the compression function applied in place. */
  method Process(state: array<bv32>, data: seq<bv8>)
    requires state.Length == 8 && |data| == 64
    modifies state
    ensures RegsOf(state[..]) == Compress(old(RegsOf(state[..])), data)
  {
    hide Rounds, Expanded, Xor;
    var w, w1 := ExpandMessage(data);
    var v := Regs(state[0], state[1], state[2], state[3], state[4], state[5], state[6], state[7]);
    var r := MixRegisters(v, data, w, w1);
    state[0], state[1], state[2], state[3] :=
      Xor(state[0], r.a), Xor(state[1], r.b), Xor(state[2], r.c), Xor(state[3], r.d);
    state[4], state[5], state[6], state[7] :=
      Xor(state[4], r.e), Xor(state[5], r.f), Xor(state[6], r.g), Xor(state[7], r.h);
  }

  lemma CounterStep(total0: nat, total1: nat, len: nat, more: nat)
    requires total0 < TWO_32 && total1 < TWO_32 && more <= INT_MAX
    requires total0 + TWO_32 * total1 == len % TWO_64
    ensures var t0 := (total0 + more) % TWO_32;
            var t1 := if t0 < more then (total1 + 1) % TWO_32 else total1;
            t0 + TWO_32 * t1 == (len + more) % TWO_64
  {
    var t0 := (total0 + more) % TWO_32;
    assert (len + more) % TWO_64 == (len % TWO_64 + more) % TWO_64;
    if total0 + more < TWO_32 {
      assert t0 == total0 + more;
    } else {
      assert t0 == total0 + more - TWO_32;
      assert total0 + TWO_32 * total1 + more == t0 + TWO_32 * (total1 + 1);
    }
  }

  lemma CounterLow(total0: nat, total1: nat, len: nat)
    requires total0 + TWO_32 * total1 == len % TWO_64
    ensures total0 % 64 == len % 64
  {
    var k := len / TWO_64 * 0x400_0000_0000_0000 + total1 * 0x400_0000 + total0 / 64;
    assert len == 64 * k + total0 % 64;
    RemainderOf64(len, k, total0 % 64);
  }

  lemma RemainderOf64(x: nat, k: nat, r: nat)
    requires x == 64 * k + r && r < 64
    ensures x % 64 == r
  {
  }

  /** The bit count of `sm3_finish`; `>>`, `<<` and `|` on separate bits are division, product and sum modulo 2^32. */
  function LengthWords(total0: nat, total1: nat): (words: (nat, nat))
    requires total0 < TWO_32 && total1 < TWO_32
    ensures words.0 < TWO_32 && words.1 < TWO_32
  {
    (total0 / 0x2000_0000 + total1 * 8 % TWO_32, total0 * 8 % TWO_32)
  }

  lemma LengthWordsAreBits(total0: nat, total1: nat, len: nat)
    requires total0 < TWO_32 && total1 < TWO_32
    requires total0 + TWO_32 * total1 == len % TWO_64
    ensures LengthWords(total0, total1) == (8 * len % TWO_64 / TWO_32, 8 * len % TWO_64 % TWO_32)
  {
    var (high, low) := LengthWords(total0, total1);
    var c := len % TWO_64;
    var carry := total1 * 8 / TWO_32;
    assert total1 * 8 == carry * TWO_32 + total1 * 8 % TWO_32;
    assert total0 * 8 == (total0 / 0x2000_0000) * TWO_32 + low;
    assert 8 * c == carry * TWO_64 + (high * TWO_32 + low);
    assert 8 * len == 8 * (len / TWO_64) * TWO_64 + 8 * c;
    assert 8 * len == (8 * (len / TWO_64) + carry) * TWO_64 + (high * TWO_32 + low);
    Remainder(8 * len, 8 * (len / TWO_64) + carry, high * TWO_32 + low);
  }

  lemma Remainder(x: nat, q: nat, r: nat)
    requires x == q * TWO_64 + r && r < TWO_64
    ensures x % TWO_64 == r
  {
  }

  lemma PadLength(len: nat, total0: nat, total1: nat)
    requires total0 + TWO_32 * total1 == len % TWO_64
    ensures (if total0 % 64 < 56 then 56 - total0 % 64 else 120 - total0 % 64) == 1 + ZeroCount(len) <= 64
  {
    assert total0 % 64 == len % 64;
  }

  lemma PaddingHead(k: nat)
    requires k < 64
    ensures ([0x80] + Zeros(63))[..1 + k] == [0x80] + Zeros(k)
  {
  }

  /** `sm3_padding` cut to the pad length, then the length field, is the padding of section 5.2. */
  lemma PaddingBytes(m: seq<bv8>, total0: nat, total1: nat, padn: nat)
    requires total0 < TWO_32 && total1 < TWO_32
    requires total0 + TWO_32 * total1 == |m| % TWO_64
    requires padn == if total0 % 64 < 56 then 56 - total0 % 64 else 120 - total0 % 64
    ensures padn <= 64
    ensures var words := LengthWords(total0, total1);
            m + ([0x80] + Zeros(63))[..padn] + Be64(words.0, words.1)[..8] == Pad(m)
  {
    hide Be64, LengthWords, ZeroCount;
    PadLength(|m|, total0, total1);
    LengthWordsAreBits(total0, total1, |m|);
    PaddingHead(ZeroCount(|m|));
    var words := LengthWords(total0, total1);
    assert Be64(words.0, words.1)[..8] == Be64(words.0, words.1);
  }

  lemma DigestOfPadded(regs: seq<bv32>, padded: seq<bv8>, m: seq<bv8>)
    requires padded == Pad(m) && Iterated(regs, padded[..Full(|padded|)])
    ensures Output(RegsOf(regs)) == Sm3(m)
  {
    hide RegsOf, Output, Compress;
    assert padded[..Full(|padded|)] == padded;
  }

  /** The eight PUT_ULONG_BE calls at the end of `sm3_finish`. */
  method PutState(state: array<bv32>) returns (output: seq<bv8>)
    requires state.Length == 8
    ensures output == Output(RegsOf(state[..]))
  {
    hide Be32;
    output := Be32(state[0]) + Be32(state[1]) + Be32(state[2]) + Be32(state[3])
            + Be32(state[4]) + Be32(state[5]) + Be32(state[6]) + Be32(state[7]);
  }

  /** `sm3_context`, with the bytes taken in so far as ghost state. */
  class Sm3Context {
    var total0: nat
    var total1: nat
    const state: array<bv32>
    const buffer: array<bv8>
    const ipad: array<bv8>
    const opad: array<bv8>
    ghost var taken: seq<bv8>

    /** The buffers are separate and the counter is a pair of 32-bit words. */
    ghost predicate Shape()
      reads this
    {
      && state.Length == 8 && buffer.Length == 64 && ipad.Length == 64 && opad.Length == 64
      && buffer != ipad && buffer != opad && ipad != opad
      && total0 < TWO_32 && total1 < TWO_32
    }

    /**
     * The context has taken in exactly `taken`: the counter is its length modulo 2^64, the registers
     * are the iteration over its whole blocks and the buffer starts with the rest.
     */
    ghost predicate Valid()
      reads this, state, buffer
    {
      && Shape()
      && total0 + TWO_32 * total1 == |taken| % TWO_64
      && Iterated(state[..], taken[..Full(|taken|)])
      && buffer[..|taken| % 64] == taken[Full(|taken|)..]
    }

    constructor ()
      ensures Shape() && fresh(state) && fresh(buffer) && fresh(ipad) && fresh(opad)
    {
      total0, total1 := 0, 0;
      state := new bv32[8];
      buffer := new bv8[64];
      ipad := new bv8[64];
      opad := new bv8[64];
    }

    /** `sm3_starts` */
    method Starts()
      requires Shape()
      modifies this, state
      ensures Valid() && taken == []
    {
      total0, total1 := 0, 0;
      state[0], state[1], state[2], state[3] := 0x7380166F, 0x4914B2B9, 0x172442D7, 0xDA8A0600;
      state[4], state[5], state[6], state[7] := 0xA96F30BC, 0x163138AA, 0xE38DEE4D, 0xB0FB0E4E;
      taken := [];
    }

    /** Compresses one block on top of the blocks `done` so far. */
    method TakeBlock(block: seq<bv8>, ghost done: seq<bv8>)
      requires Shape() && |block| == 64 && Iterated(state[..], done)
      modifies state
      ensures Iterated(state[..], done + block)
    {
      hide Compress, Iterated, RegsOf;
      ghost var before := state[..];
      Process(state, block);
      IterateBlock(before, state[..], done, block);
    }

    /** The first `memcpy` of `sm3_update`: completes the pending block and compresses it. */
    method CompleteBlock(left: nat, input: seq<bv8>, ghost done: seq<bv8>)
      requires Shape() && left < 64 && |input| == 64 - left && Iterated(state[..], done)
      modifies state, buffer
      ensures Iterated(state[..], done + old(buffer[..left]) + input)
    {
      hide Iterated;
      ghost var pending := buffer[..left];
      forall i | 0 <= i < |input| {
        buffer[left + i] := input[i];
      }
      assert buffer[..] == pending + input && state[..] == old(state[..]);
      assert done + (pending + input) == done + pending + input;
      TakeBlock(buffer[..], done);
    }

    /** The two-word byte counter of `sm3_update`. */
    method Count(ilen: nat, ghost len: nat)
      requires Shape() && ilen <= INT_MAX
      requires total0 + TWO_32 * total1 == len % TWO_64
      modifies this`total0, this`total1
      ensures Shape() && total0 + TWO_32 * total1 == (len + ilen) % TWO_64
    {
      CounterStep(total0, total1, len, ilen);
      total0 := (total0 + ilen) % TWO_32;
      if total0 < ilen {
        total1 := (total1 + 1) % TWO_32;
      }
    }

    /** The block loop of `sm3_update`. */
    method WholeBlocks(input: seq<bv8>, start: nat, ghost before: seq<bv8>) returns (pos: nat)
      requires Shape() && start <= |input| && Iterated(state[..], before)
      modifies state
      ensures start <= pos <= |input| < pos + 64
      ensures pos - start == Full(|input| - start)
      ensures Iterated(state[..], before + input[start..pos])
    {
      hide Iterated;
      pos := start;
      assert before + input[start..pos] == before;
      while |input| - pos >= 64
        invariant start <= pos <= |input| && (pos - start) % 64 == 0
        invariant Iterated(state[..], before + input[start..pos])
      {
        TakeBlock(input[pos..pos + 64], before + input[start..pos]);
        assert before + input[start..pos] + input[pos..pos + 64] == before + input[start..pos + 64];
        pos := pos + 64;
      }
    }

    /** The last `memcpy` of `sm3_update`. */
    method StoreTail(left: nat, tail: seq<bv8>)
      requires Shape() && left + |tail| <= 64
      modifies buffer
      ensures buffer[..left + |tail|] == old(buffer[..left]) + tail
    {
      forall i | 0 <= i < |tail| {
        buffer[left + i] := tail[i];
      }
    }

    /** The first branch of `sm3_update`: complete the pending block if the input reaches that far. */
    method FillPending(left: nat, input: seq<bv8>, ghost done: seq<bv8>)
        returns (pos: nat, kept: nat, ghost whole: seq<bv8>)
      requires Shape() && left < 64 && Iterated(state[..], done)
      modifies state, buffer
      ensures Iterated(state[..], whole) && pos <= |input| && kept < 64
      ensures kept == 0 || |input| - pos < 64 - kept
      ensures whole + buffer[..kept] + input[pos..] == done + old(buffer[..left]) + input
    {
      hide Iterated;
      pos, kept, whole := 0, left, done;
      if left != 0 && |input| >= 64 - left {
        pos, kept := 64 - left, 0;
        whole := done + buffer[..left] + input[..pos];
        CompleteBlock(left, input[..pos], done);
        assert input == input[..pos] + input[pos..] && buffer[..0] == [];
      }
    }

    /** Everything `sm3_update` does but count: fill the pending block, run over whole blocks, keep the tail. */
    method Feed(left: nat, input: seq<bv8>, ghost done: seq<bv8>) returns (ghost whole: seq<bv8>, ghost tail: seq<bv8>)
      requires Shape() && left < 64 && Iterated(state[..], done)
      modifies state, buffer
      ensures Iterated(state[..], whole) && |whole| % 64 == 0 && |tail| < 64
      ensures buffer[..|tail|] == tail
      ensures whole + tail == done + old(buffer[..left]) + input
    {
      hide Iterated;
      var start, kept;
      start, kept, whole := FillPending(left, input, done);
      ghost var pending := buffer[..kept];
      var pos := WholeBlocks(input, start, whole);
      StoreTail(kept, input[pos..]);
      tail := pending + input[pos..];
      assert input[start..] == input[start..pos] + input[pos..];
      Regroup(whole, pending, input[start..pos], input[pos..]);
      whole := whole + input[start..pos];
      IteratedWhole(state[..], whole);
    }

    /** `sm3_update`: a call with a positive length appends, any other call does nothing. */
    method Update(input: seq<bv8>, ilen: int)
      requires Valid() && ilen <= |input| && ilen <= INT_MAX
      modifies this, state, buffer
      ensures Valid()
      ensures taken == if ilen > 0 then old(taken) + input[..ilen] else old(taken)
    {
      hide Iterated, Full;
      if ilen <= 0 { return; }
      var left := total0 % 64;
      CounterLow(total0, total1, |taken|);
      CutAtFull(taken);
      Count(ilen, |taken|);
      ghost var whole, tail := Feed(left, input[..ilen], taken[..Full(|taken|)]);
      taken := taken + input[..ilen];
      SplitAtFull(taken, whole, tail);
    }

    /** `sm3_finish`: pads, and puts out the digest of everything taken in. */
    method Finish() returns (output: seq<bv8>)
      requires Valid()
      modifies this, state, buffer
      ensures Shape()
      ensures output == Sm3(old(taken))
    {
      hide Be64, Output, Pad, Iterated, RegsOf, Sm3, LengthWords;
      var words := LengthWords(total0, total1);
      var msglen := Be64(words.0, words.1);
      var last := total0 % 64;
      var padn := if last < 56 then 56 - last else 120 - last;
      PaddingBytes(taken, total0, total1, padn);
      Update([0x80] + Zeros(63), padn);
      Update(msglen, 8);
      DigestOfPadded(state[..], taken, old(taken));
      output := PutState(state);
    }

    /** Started with `key` and given `text` so far (`sm3_hmac_starts` and `sm3_hmac_update`). */
    ghost predicate Keyed(key: seq<bv8>, text: seq<bv8>)
      reads this, state, buffer, opad
    {
      && Valid()
      && taken == XorAll(HmacKeyBlock(key), 0x36) + text
      && opad[..] == XorAll(HmacKeyBlock(key), 0x5C)
    }

    /** The `memset` of both pads and the loop that mixes in a key of at most one block. */
    method SetPads(key: seq<bv8>)
      requires Shape() && |key| <= 64
      modifies ipad, opad
      ensures ipad[..] == XorAll(key + Zeros(64 - |key|), 0x36)
      ensures opad[..] == XorAll(key + Zeros(64 - |key|), 0x5C)
    {
      forall i | 0 <= i < 64 { ipad[i] := 0x36; }
      forall i | 0 <= i < 64 { opad[i] := 0x5C; }
      for i := 0 to |key|
        invariant forall k :: 0 <= k < 64 ==> ipad[k] == if k < i then 0x36 ^ key[k] else 0x36
        invariant forall k :: 0 <= k < 64 ==> opad[k] == if k < i then 0x5C ^ key[k] else 0x5C
      {
        ipad[i] := ipad[i] ^ key[i];
        opad[i] := opad[i] ^ key[i];
      }
    }

    /** `sm3_hmac_starts` */
    method HmacStarts(key: seq<bv8>)
      requires Shape() && |key| <= INT_MAX
      modifies this, state, buffer, ipad, opad
      ensures Keyed(key, [])
    {
      hide Iterated, Sm3, XorAll;
      var short := key;
      if |key| > 64 {
        short := HashMessage(key, |key|);
      }
      SetPads(short);
      Starts();
      assert short + Zeros(64 - |short|) == HmacKeyBlock(key) by {
        assert key[..|key|] == key;
      }
      ghost var inner := ipad[..];
      Update(ipad[..], 64);
      assert inner[..64] == inner && [] + inner == inner + [];
    }

    /** `sm3_hmac_update` */
    method HmacUpdate(input: seq<bv8>, ilen: int, ghost key: seq<bv8>, ghost text: seq<bv8>)
      requires Keyed(key, text) && ilen <= |input| && ilen <= INT_MAX
      modifies this, state, buffer
      ensures Keyed(key, if ilen > 0 then text + input[..ilen] else text)
    {
      hide Iterated, HmacKeyBlock, XorAll;
      Update(input, ilen);
      assert opad[..] == old(opad[..]);
    }

    /** `sm3_hmac_finish` */
    method HmacFinish(ghost key: seq<bv8>, ghost text: seq<bv8>) returns (output: seq<bv8>)
      requires Keyed(key, text)
      modifies this, state, buffer
      ensures Shape() && output == Hmac(key, text)
    {
      hide Iterated, Sm3, HmacKeyBlock, XorAll;
      var tmpbuf := Finish();
      ghost var outer := opad[..];
      assert outer == old(opad[..]);
      Starts();
      Update(opad[..], 64);
      assert taken == outer;
      Update(tmpbuf, 32);
      assert taken == outer + tmpbuf;
      output := Finish();
    }
  }

  /** `sm3`: one message, one call. */
  method HashMessage(input: seq<bv8>, ilen: int) returns (output: seq<bv8>)
    requires ilen <= |input| && ilen <= INT_MAX
    ensures output == Sm3(if ilen > 0 then input[..ilen] else [])
  {
    hide Iterated, Sm3;
    var ctx := new Sm3Context();
    ctx.Starts();
    ctx.Update(input, ilen);
    assert ctx.taken == if ilen > 0 then input[..ilen] else [];
    output := ctx.Finish();
  }

  /** What `fopen` and `fread` can make of a path: the bytes read, up to an error if there is one. */
  datatype Source = Unopenable | Opened(content: seq<bv8>, failed: bool)

  lemma NextPiece(content: seq<bv8>, pos: nat, n: nat)
    requires pos + n <= |content|
    ensures content[..pos] + content[pos..pos + n] == content[..pos + n]
    ensures content[pos..pos + n][..n] == content[pos..pos + n]
  {
  }

  /** The `fread` loop of `sm3_file`, 1024 bytes at a time. */
  method TakeAll(ctx: Sm3Context, content: seq<bv8>)
    requires ctx.Valid() && ctx.taken == []
    modifies ctx, ctx.state, ctx.buffer
    ensures ctx.Valid() && ctx.taken == content
  {
    var pos := 0;
    while pos < |content|
      invariant 0 <= pos <= |content| && ctx.Valid() && ctx.taken == content[..pos]
    {
      var n := if |content| - pos < 1024 then |content| - pos else 1024;
      NextPiece(content, pos, n);
      ctx.Update(content[pos..pos + n], n);
      pos := pos + n;
    }
    assert content[..pos] == content;
  }

  /** `sm3_file`: 1 if the file cannot be opened, 2 after a read error, the digest of what was read being there. */
  method HashFile(file: Source) returns (code: int, output: seq<bv8>)
    ensures file.Unopenable? ==> code == 1
    ensures file.Opened? ==> code == (if file.failed then 2 else 0) && output == Sm3(file.content)
  {
    hide Iterated, Sm3;
    if file.Unopenable? {
      return 1, [];
    }
    var ctx := new Sm3Context();
    ctx.Starts();
    TakeAll(ctx, file.content);
    output := ctx.Finish();
    code := if file.failed then 2 else 0;
  }

  /** `sm3_hmac` */
  method HmacMessage(key: seq<bv8>, input: seq<bv8>) returns (output: seq<bv8>)
    requires |key| <= INT_MAX && |input| <= INT_MAX
    ensures output == Hmac(key, input)
  {
    hide Hmac, HmacKeyBlock;
    var ctx := new Sm3Context();
    ctx.HmacStarts(key);
    ctx.HmacUpdate(input, |input|, key, []);
    assert (if |input| > 0 then [] + input[..|input|] else []) == input;
    output := ctx.HmacFinish(key, input);
  }
}
