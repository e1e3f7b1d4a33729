/**
 * The unbalanced four-word Feistel network that both the SM4 rounds and the SM4 key schedule run,
 * for any number of rounds and any mixing function `t` (sections 6 and 7 of GM/T 0002-2012).
 */
module Feistel {
  import opened Words

  datatype Quad = Quad(x0: bv32, x1: bv32, x2: bv32, x3: bv32)

  function NewWord(t: bv32 -> bv32, rk: bv32, q: Quad): bv32 {
    Xor(q.x0, t(Xor(Xor(Xor(q.x1, q.x2), q.x3), rk)))
  }

  function Round(t: bv32 -> bv32, rk: bv32, q: Quad): Quad {
    Quad(q.x1, q.x2, q.x3, NewWord(t, rk, q))
  }

  function Run(t: bv32 -> bv32, rks: seq<bv32>, q: Quad): Quad {
    if rks == [] then q else Round(t, rks[|rks| - 1], Run(t, rks[..|rks| - 1], q))
  }

  /** The reverse transform R. */
  function Flip(q: Quad): Quad {
    Quad(q.x3, q.x2, q.x1, q.x0)
  }

  function Crypt(t: bv32 -> bv32, rks: seq<bv32>, q: Quad): Quad {
    Flip(Run(t, rks, q))
  }

  function Reverse<A>(s: seq<A>): (r: seq<A>)
    ensures |r| == |s|
    ensures forall i :: 0 <= i < |s| ==> r[i] == s[|s| - 1 - i]
  {
    seq(|s|, i requires 0 <= i < |s| => s[|s| - 1 - i])
  }

  lemma XorReversed(a: bv32, b: bv32, c: bv32)
    ensures Xor(Xor(a, b), c) == Xor(Xor(c, b), a)
  {
    hide Xor;
    XorCommutes(Xor(a, b), c);
    XorCommutes(a, b);
    XorAssociates(c, b, a);
  }

  /** One round between two flips undoes the round. */
  lemma RoundUndone(t: bv32 -> bv32, rk: bv32, q: Quad)
    ensures Flip(Round(t, rk, Flip(Round(t, rk, q)))) == q
  {
    hide Xor;
    var mixed := t(Xor(Xor(Xor(q.x1, q.x2), q.x3), rk));
    XorReversed(q.x1, q.x2, q.x3);
    XorCancels(q.x0, mixed);
  }

  lemma {:induction false} RunAppend(t: bv32 -> bv32, a: seq<bv32>, b: seq<bv32>, q: Quad)
    ensures Run(t, a + b, q) == Run(t, b, Run(t, a, q))
    decreases |b|
  {
    hide Round;
    if b == [] {
      assert a + b == a;
    } else {
      var last := |b| - 1;
      assert (a + b)[..|a + b| - 1] == a + b[..last];
      RunAppend(t, a, b[..last], q);
    }
  }

  lemma {:induction false} RunUndone(t: bv32 -> bv32, rks: seq<bv32>, q: Quad)
    ensures Run(t, Reverse(rks), Flip(Run(t, rks, q))) == Flip(q)
    decreases |rks|
  {
    hide Round, Flip;
    if rks == [] {
      assert Reverse(rks) == [];
    } else {
      var last := |rks| - 1;
      var mid := Run(t, rks[..last], q);
      assert Reverse(rks) == [rks[last]] + Reverse(rks[..last]);
      RunAppend(t, [rks[last]], Reverse(rks[..last]), Flip(Run(t, rks, q)));
      RoundOnFlip(t, rks[last], mid);
      RunOne(t, rks[last], Flip(Run(t, rks, q)));
      RunUndone(t, rks[..last], q);
    }
  }

  lemma RunOne(t: bv32 -> bv32, rk: bv32, q: Quad)
    ensures Run(t, [rk], q) == Round(t, rk, q)
  {
    hide Round;
    assert [rk][..0] == [];
    assert Run(t, [], q) == q;
  }

  lemma RoundOnFlip(t: bv32 -> bv32, rk: bv32, q: Quad)
    ensures Round(t, rk, Flip(Round(t, rk, q))) == Flip(q)
  {
    hide Round;
    RoundUndone(t, rk, q);
    FlipTwice(Round(t, rk, Flip(Round(t, rk, q))));
  }

  lemma FlipTwice(q: Quad)
    ensures Flip(Flip(q)) == q
  {
  }

  /** Running the same network with the round keys reversed undoes it. */
  lemma CryptUndone(t: bv32 -> bv32, rks: seq<bv32>, q: Quad)
    ensures Crypt(t, Reverse(rks), Crypt(t, rks, q)) == q
  {
    hide Run, Flip;
    RunUndone(t, rks, q);
    FlipTwice(q);
  }

  /** A network that ends in the same quad started from the same quad. */
  lemma RunInjective(t: bv32 -> bv32, rks: seq<bv32>, q: Quad, q': Quad)
    requires Run(t, rks, q) == Run(t, rks, q')
    ensures q == q'
  {
    hide Run, Flip;
    CryptUndone(t, rks, q);
    CryptUndone(t, rks, q');
  }

  /** The words the network goes through: the four it starts from, then one per round. */
  function Trace(t: bv32 -> bv32, rks: seq<bv32>, q: Quad): (w: seq<bv32>)
    ensures |w| == |rks| + 4
    ensures Quad(w[|rks|], w[|rks| + 1], w[|rks| + 2], w[|rks| + 3]) == Run(t, rks, q)
  {
    if rks == [] then [q.x0, q.x1, q.x2, q.x3]
    else
      var init := rks[..|rks| - 1];
      Trace(t, init, q) + [NewWord(t, rks[|rks| - 1], Run(t, init, q))]
  }

  lemma {:induction false} TracePrefix(t: bv32 -> bv32, rks: seq<bv32>, i: nat, q: Quad)
    requires i <= |rks|
    ensures Trace(t, rks, q)[..i + 4] == Trace(t, rks[..i], q)
    decreases |rks|
  {
    hide NewWord;
    if i == |rks| {
      assert rks[..i] == rks;
    } else {
      var init := rks[..|rks| - 1];
      TracePrefix(t, init, i, q);
      assert init[..i] == rks[..i];
    }
  }

  /** Any four consecutive words of the trace determine where it started, hence all of it. */
  lemma TraceInjective(t: bv32 -> bv32, rks: seq<bv32>, i: nat, q: Quad, q': Quad)
    requires i <= |rks|
    requires Trace(t, rks, q)[i..i + 4] == Trace(t, rks, q')[i..i + 4]
    ensures q == q'
  {
    var w, w' := Trace(t, rks, q), Trace(t, rks, q');
    TracePrefix(t, rks, i, q);
    TracePrefix(t, rks, i, q');
    assert forall k :: i <= k < i + 4 ==> w[k] == w[i..i + 4][k - i] && w'[k] == w'[i..i + 4][k - i];
    assert forall k :: i <= k < i + 4 ==> w[..i + 4][k] == w[k] && w'[..i + 4][k] == w'[k];
    RunInjective(t, rks[..i], q, q');
  }
}
