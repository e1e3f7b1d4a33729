/** Iterating a compression function over 64-byte blocks, for any state type and any compression function. */
module Blocks {

  type Block = b: seq<bv8> | |b| == 64 witness seq(64, _ => 0)

  /** The number of whole-block bytes among `n`. */
  function Full(n: nat): (r: nat)
    ensures r % 64 == 0 && r <= n < r + 64 && n - r == n % 64
  {
    n - n % 64
  }

  /** Whole blocks followed by less than a block: the split is determined by the length. */
  lemma SplitAtFull(m: seq<bv8>, done: seq<bv8>, pending: seq<bv8>)
    requires m == done + pending && |done| % 64 == 0 && |pending| < 64
    ensures m[..Full(|m|)] == done && m[Full(|m|)..] == pending && |m| % 64 == |pending|
  {
  }

  lemma CutAtFull(m: seq<bv8>)
    ensures m == m[..Full(|m|)] + m[Full(|m|)..] && |m[Full(|m|)..]| == |m| % 64
  {
  }

  lemma Regroup(whole: seq<bv8>, pending: seq<bv8>, middle: seq<bv8>, rest: seq<bv8>)
    requires pending == [] || middle == []
    ensures whole + middle + (pending + rest) == whole + pending + (middle + rest)
  {
  }

  ghost function Fold<S>(f: (S, Block) -> S, v: S, m: seq<bv8>): S
    requires |m| % 64 == 0
    decreases |m|
  {
    if m == [] then v else Fold(f, f(v, m[..64]), m[64..])
  }

  lemma {:induction false} FoldAppend<S>(f: (S, Block) -> S, v: S, a: seq<bv8>, b: seq<bv8>)
    requires |a| % 64 == 0 && |b| % 64 == 0
    ensures Fold(f, v, a + b) == Fold(f, Fold(f, v, a), b)
    decreases |a|
  {
    if a == [] {
      assert a + b == b;
    } else {
      assert (a + b)[..64] == a[..64] && (a + b)[64..] == a[64..] + b;
      FoldAppend(f, f(v, a[..64]), a[64..], b);
    }
  }

  lemma FoldBlock<S>(f: (S, Block) -> S, v: S, a: seq<bv8>, block: Block)
    requires |a| % 64 == 0
    ensures Fold(f, v, a + block) == f(Fold(f, v, a), block)
  {
    FoldAppend(f, v, a, block);
    assert block[..64] == block && block[64..] == [];
    assert Fold(f, f(Fold(f, v, a), block), []) == f(Fold(f, v, a), block);
  }

  // ----- padding (section 5.2 of GM/T 0004-2012) -----

  function Zeros(n: nat): (r: seq<bv8>)
    ensures |r| == n && forall i :: 0 <= i < n ==> r[i] == 0
  {
    seq(n, _ => 0)
  }

  /** How many zero bytes follow the 0x80: the least number that leaves 8 bytes free in the last block. */
  function ZeroCount(bytes: nat): (k: nat)
    ensures k < 64 && (bytes + 1 + k + 8) % 64 == 0
  {
    (55 - bytes) % 64
  }
}
