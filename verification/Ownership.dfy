/** Allocation, `cJSON_New_Item` and `cJSON_Delete` on the C heap. */
module Ownership {
  import opened CText
  import opened CHeap

  // ----- a free address always exists -----

  function Range(n: nat): (s: set<nat>)
    ensures forall p :: p in s <==> 1 <= p <= n
  {
    if n == 0 then {} else Range(n - 1) + {n}
  }

  lemma {:induction false} RangeSize(n: nat)
    ensures |Range(n)| == n
  {
    if n > 0 {
      RangeSize(n - 1);
    }
  }

  lemma {:induction false} SubsetSize(a: set<Ptr>, b: set<Ptr>)
    requires a <= b
    ensures |a| <= |b|
    decreases |a|
  {
    if a != {} {
      var x :| x in a;
      SubsetSize(a - {x}, b - {x});
    }
  }

  lemma FreeAddress(mem: Mem)
    ensures exists p: nat :: 0 < p <= |mem| + 1 && p !in mem
  {
    RangeSize(|mem| + 1);
    if forall p: nat :: 0 < p <= |mem| + 1 ==> p in mem {
      assert Range(|mem| + 1) <= mem.Keys;
      SubsetSize(Range(|mem| + 1), mem.Keys);
      assert false;
    }
  }

  // ----- ownership when blocks are taken away -----

  lemma OwnedWithout(mem: Mem, gone: set<Ptr>, t: Tree)
    requires Owned(mem, t) && Foot(t) !! gone
    ensures Owned(mem - gone, t)
  {
    hide Owned, Foot;
    OwnedExists(mem, t);
    OwnedFrame(mem, mem - gone, t);
  }

  lemma OwnedAllWithout(mem: Mem, gone: set<Ptr>, ts: seq<Tree>)
    requires OwnedAll(mem, ts) && FootAll(ts) !! gone
    ensures OwnedAll(mem - gone, ts)
  {
    hide Owned, Foot;
    forall i | 0 <= i < |ts| ensures Owned(mem - gone, ts[i]) {
      FootInAll(ts, i);
      OwnedWithout(mem, gone, ts[i]);
    }
  }

  lemma LinkedWithout(mem: Mem, gone: set<Ptr>, ts: seq<Tree>)
    requires NextLinked(mem, Ptrs(ts)) && FootAll(ts) !! gone
    ensures NextLinked(mem - gone, Ptrs(ts))
  {
    forall i | 0 <= i < |ts| ensures ts[i].ptr !in gone {
      FootInAll(ts, i);
    }
    ChainedFrame(mem, mem - gone, Ptrs(ts));
  }

  lemma ApartTail(ts: seq<Tree>)
    requires ts != [] && Apart(ts)
    ensures Apart(ts[1..]) && Foot(ts[0]) !! FootAll(ts[1..])
  {
    hide Foot;
    forall p | p in FootAll(ts[1..]) ensures p !in Foot(ts[0]) {
      var i := InSomeFoot(ts[1..], p);
      assert ts[1..][i] == ts[i + 1];
    }
  }

  /** A list whose items are owned, as `cJSON_Delete` finds it. */
  ghost predicate Deletable(mem: Mem, item: Ptr, ts: seq<Tree>) {
    item == Head(Ptrs(ts)) && NextLinked(mem, Ptrs(ts)) && OwnedAll(mem, ts)
  }

  lemma NextLinkedTail(mem: Mem, ps: seq<Ptr>)
    requires NextLinked(mem, ps) && ps != []
    ensures ItemAt(mem, ps[0]) && mem[ps[0]].node.next == Head(ps[1..]) && NextLinked(mem, ps[1..])
  {
    var rest := ps[1..];
    forall i | 0 <= i < |rest| ensures ItemAt(mem, rest[i]) && mem[rest[i]].node.next == PtrAt(rest, i + 1) {
      assert rest[i] == ps[i + 1];
    }
  }

  lemma DeletableTail(mem: Mem, item: Ptr, ts: seq<Tree>)
    requires Deletable(mem, item, ts) && item != NULL
    ensures ts != [] && Owned(mem, ts[0]) && item == ts[0].ptr && ItemAt(mem, item)
    ensures Deletable(mem - Foot(ts[0]), mem[item].node.next, ts[1..])
  {
    hide Owned, Foot;
    ApartTail(ts);
    var rest := ts[1..];
    assert Ptrs(rest) == Ptrs(ts)[1..];
    NextLinkedTail(mem, Ptrs(ts));
    assert OwnedAll(mem, rest);
    LinkedWithout(mem, Foot(ts[0]), rest);
    OwnedAllWithout(mem, Foot(ts[0]), rest);
  }

  lemma OwnBlocks(mem: Mem, t: Tree)
    requires Owned(mem, t)
    ensures Own(t) <= mem.Keys && Own(t) !! FootAll(t.kids) && NULL !in Own(t)
    ensures t.value != t.ptr && t.name != t.ptr && (t.value != NULL ==> t.value != t.name)
  {
    hide FootAll, Apart, Chained;
  }

  /** The children of an item, and what is left of the item's own blocks, as the loop body frees them. */
  lemma KidsDeletable(mem: Mem, t: Tree)
    requires Owned(mem, t)
    ensures ItemAt(mem, t.ptr)
    ensures var n := mem[t.ptr].node;
            && (n.isReference || n.child == NULL ==> t.kids == [])
            && (n.isReference ==> t.value == NULL)
            && (!n.isReference ==> Deletable(mem, n.child, t.kids) && t.value == n.valuestring)
            && t.name == (if n.stringIsConst then NULL else n.name)
    ensures Own(t) <= mem.Keys && Own(t) !! FootAll(t.kids) && NULL !in Own(t)
    ensures t.value != t.ptr && t.name != t.ptr && (t.value != NULL ==> t.value != t.name)
  {
    hide FootAll, Apart, TextAt, Own;
    OwnBlocks(mem, t);
  }

  lemma NoBlocks()
    ensures FootAll([]) == {}
  {
  }

  class Heap {
    var mem: Mem
    /** An allocation has failed. */
    ghost var starved: bool

    constructor ()
      ensures mem == map[] && !starved
    {
      mem, starved := map[], false;
    }

    /** The `allocate` hook: a block at a fresh address, or NULL at any time. */
    method Allocate(b: Block) returns (p: Ptr)
      modifies this
      ensures p == NULL ==> mem == old(mem) && starved
      ensures p != NULL ==> p !in old(mem) && mem == old(mem)[p := b] && starved == old(starved)
    {
      if * {
        starved := true;
        return NULL;
      }
      FreeAddress(mem);
      p :| 0 < p <= |mem| + 1 && p !in mem;
      mem := mem[p := b];
    }

    /** The `deallocate` hook: the block must be there. */
    method Free(p: Ptr)
      requires p in mem
      modifies this`mem
      ensures mem == old(mem) - {p}
    {
      mem := mem - {p};
    }

    /** A write through a `cJSON *`. */
    method Update(p: Ptr, n: Node)
      requires ItemAt(mem, p)
      modifies this`mem
      ensures mem == old(mem)[p := Item(n)]
    {
      mem := mem[p := Item(n)];
    }

    /** A write through a `char *`: it must hit the block. */
    method Put(p: Ptr, i: nat, c: uchar)
      requires p in mem && mem[p].Text? && i < |mem[p].data|
      modifies this`mem
      ensures mem == old(mem)[p := Text(old(mem[p].data)[i := c])]
    {
      mem := mem[p := Text(mem[p].data[i := c])];
    }

    /** `cJSON_New_Item` */
    method NewItem() returns (p: Ptr)
      modifies this
      ensures p == NULL ==> mem == old(mem) && starved
      ensures p != NULL ==> p !in old(mem) && mem == old(mem)[p := Item(BLANK)] && starved == old(starved)
    {
      p := Allocate(Item(BLANK));
    }

    /** The blocks `cJSON_Delete` frees for one item, the children first. */
    method DeleteOne(item: Ptr, ghost t: Tree)
      requires Owned(mem, t) && item == t.ptr
      modifies this`mem
      ensures mem == old(mem) - Foot(t)
      decreases t, 0
    {
      hide Owned, FootAll, OwnedAll, NextLinked;
      KidsDeletable(mem, t);
      NoBlocks();
      ghost var was := mem;
      var node := mem[item].node;
      if !node.isReference && node.child != NULL {
        Delete(node.child, t.kids);
      }
      assert mem == was - FootAll(t.kids);
      if !node.isReference && node.valuestring != NULL {
        Free(node.valuestring);
      }
      if !node.stringIsConst && node.name != NULL {
        Free(node.name);
      }
      Free(item);
      assert mem.Keys == was.Keys - FootAll(t.kids) - Own(t);
    }

    /**
     * `cJSON_Delete` on a list of items: every block they own is freed once, no other block is touched, and
     * neither children nor string of a reference are.
     */
    method Delete(item: Ptr, ghost ts: seq<Tree>)
      requires Deletable(mem, item, ts)
      modifies this`mem
      ensures mem == old(mem) - FootAll(ts)
      decreases ts, 1
    {
      hide Owned, Foot, Deletable;
      NoBlocks();
      var current := item;
      ghost var k := 0;
      assert ts[0..] == ts && ts[..0] == [];
      while current != NULL
        invariant 0 <= k <= |ts| && Deletable(mem, current, ts[k..])
        invariant mem == old(mem) - FootAll(ts[..k])
        decreases |ts| - k
      {
        DeletableTail(mem, current, ts[k..]);
        var next := mem[current].node.next;
        DeleteOne(current, ts[k]);
        FootOne(ts[k]);
        FootAppend(ts[..k], [ts[k]]);
        assert ts[..k] + [ts[k]] == ts[..k + 1] && ts[k..][1..] == ts[k + 1..];
        k := k + 1;
        current := next;
      }
      EmptyList(mem, ts[k..]);
      assert ts[..k] == ts;
    }
  }

  lemma EmptyList(mem: Mem, ts: seq<Tree>)
    requires Deletable(mem, NULL, ts)
    ensures ts == []
  {
  }
}
