/** The editing functions on the children of an array or object: append, insert, detach, replace. */
module Siblings {
  import opened Words
  import opened CHeap
  import opened Ownership

  /** `ps` are the children of `parent`, in order, in a well formed list. */
  ghost predicate Kids(mem: Mem, parent: Ptr, ps: seq<Ptr>) {
    ItemAt(mem, parent) && mem[parent].node.child == Head(ps) && Chained(mem, ps) && parent !in ps
  }

  /** An item in no list. */
  predicate Single(mem: Mem, item: Ptr) {
    ItemAt(mem, item) && mem[item].node.next == NULL && mem[item].node.prev == NULL
  }

  /** Only `child` of the parent and the links of the items in `ps` may differ. */
  ghost predicate Relinked(mem: Mem, mem': Mem, parent: Ptr, ps: seq<Ptr>) {
    && mem'.Keys == mem.Keys
    && forall p :: p in mem ==>
         if p == parent then mem[p].Item? && mem'[p].Item? && mem'[p].node == mem[p].node.(child := mem'[p].node.child)
         else if p in ps then SameButLinks(mem[p], mem'[p])
         else mem'[p] == mem[p]
  }

  function Without<T>(s: seq<T>, i: nat): seq<T>
    requires i < |s|
  {
    s[..i] + s[i + 1..]
  }

  function Inserted<T>(s: seq<T>, i: nat, x: T): seq<T> {
    if i < |s| then s[..i] + [x] + s[i..] else s + [x]
  }

  lemma KidAt(mem: Mem, parent: Ptr, ps: seq<Ptr>, i: nat)
    requires Kids(mem, parent, ps) && i < |ps|
    ensures ItemAt(mem, ps[i]) && ps[i] != parent
    ensures mem[ps[i]].node.next == PtrAt(ps, i + 1) && mem[ps[i]].node.prev == PtrAt(ps, i - 1)
  {
  }

  lemma KidsHead(mem: Mem, parent: Ptr, ps: seq<Ptr>)
    requires Kids(mem, parent, ps)
    ensures ItemAt(mem, parent) && mem[parent].node.child == PtrAt(ps, 0) && parent !in ps
  {
  }

  lemma KidsApart(mem: Mem, parent: Ptr, ps: seq<Ptr>, i: nat, j: nat)
    requires Kids(mem, parent, ps) && i < |ps| && j < |ps|
    ensures ps[i] == ps[j] <==> i == j
  {
  }

  // ----- reading -----

  /** `get_array_item` */
  method GetItem(heap: Heap, parent: Ptr, index: nat, ghost ps: seq<Ptr>) returns (item: Ptr)
    requires parent != NULL ==> Kids(heap.mem, parent, ps)
    ensures item == if parent == NULL then NULL else PtrAt(ps, index)
  {
    hide Kids;
    if parent == NULL {
      return NULL;
    }
    KidsHead(heap.mem, parent, ps);
    item := heap.mem[parent].node.child;
    var left := index;
    while item != NULL && left > 0
      invariant 0 <= left <= index && index - left <= |ps| && item == PtrAt(ps, index - left)
      decreases left
    {
      KidAt(heap.mem, parent, ps, index - left);
      left := left - 1;
      item := heap.mem[item].node.next;
    }
    if item == NULL {
      NoMore(heap.mem, parent, ps, index - left);
    }
  }

  /** `cJSON_GetArraySize`: the number of children, which the conversion to `int` keeps below 2^31. */
  method GetArraySize(heap: Heap, parent: Ptr, ghost ps: seq<Ptr>) returns (count: int)
    requires parent != NULL ==> Kids(heap.mem, parent, ps)
    ensures count == if parent == NULL then 0 else ToInt(|ps|)
    ensures parent != NULL ==> (count == |ps| <==> |ps| <= INT_MAX)
  {
    hide Kids;
    var size: nat := 0;
    if parent == NULL {
      return 0;
    }
    KidsHead(heap.mem, parent, ps);
    var child := heap.mem[parent].node.child;
    while child != NULL
      invariant size <= |ps| && child == PtrAt(ps, size)
      decreases |ps| - size
    {
      KidAt(heap.mem, parent, ps, size);
      size := size + 1;
      child := heap.mem[child].node.next;
    }
    NoMore(heap.mem, parent, ps, size);
    count := ToInt(size);
  }

  lemma NoMore(mem: Mem, parent: Ptr, ps: seq<Ptr>, i: nat)
    requires Kids(mem, parent, ps) && PtrAt(ps, i) == NULL && i <= |ps|
    ensures i == |ps|
  {
    if i < |ps| {
      KidAt(mem, parent, ps, i);
    }
  }

  // ----- append -----

  /** `suffix_object` */
  method SuffixObject(heap: Heap, prev: Ptr, item: Ptr)
    requires ItemAt(heap.mem, prev) && ItemAt(heap.mem, item) && prev != item
    modifies heap`mem
    ensures heap.mem == old(heap.mem)[prev := Item(old(heap.mem[prev].node).(next := item))]
                                     [item := Item(old(heap.mem[item].node).(prev := prev))]
  {
    heap.Update(prev, heap.mem[prev].node.(next := item));
    heap.Update(item, heap.mem[item].node.(prev := prev));
  }

  /** What `add_item_to_array` writes, `last` being the last child or NULL. */
  function Appended(mem: Mem, parent: Ptr, last: Ptr, item: Ptr): Mem
    requires ItemAt(mem, parent) && ItemAt(mem, item) && (last == NULL || ItemAt(mem, last))
  {
    if last == NULL then mem[parent := Item(mem[parent].node.(child := item))]
    else mem[last := Item(mem[last].node.(next := item))][item := Item(mem[item].node.(prev := last))]
  }

  /** `item` heads the list `qs`, usually of itself alone; its own `prev` may be anything. */
  ghost predicate Heads(mem: Mem, item: Ptr, qs: seq<Ptr>) {
    && NextLinked(mem, qs) && item == PtrAt(qs, 0) != NULL
    && (forall k :: 0 < k < |qs| ==> mem[qs[k]].node.prev == PtrAt(qs, k - 1))
    && (forall a, b :: 0 <= a < b < |qs| ==> qs[a] != qs[b])
  }

  /** The list can follow the children `ps`; `prev` is not written if there are none. */
  ghost predicate Appendable(mem: Mem, parent: Ptr, ps: seq<Ptr>, item: Ptr, qs: seq<Ptr>) {
    && Heads(mem, item, qs) && parent !in qs && (forall q :: q in qs ==> q !in ps)
    && (ps == [] ==> mem[item].node.prev == NULL)
  }

  lemma SingleAppendable(mem: Mem, parent: Ptr, ps: seq<Ptr>, item: Ptr)
    requires Single(mem, item) && item != parent && item !in ps
    ensures Appendable(mem, parent, ps, item, [item])
  {
  }

  lemma QueuedAt(mem: Mem, parent: Ptr, ps: seq<Ptr>, item: Ptr, qs: seq<Ptr>, k: nat)
    requires Appendable(mem, parent, ps, item, qs) && k < |qs|
    ensures ItemAt(mem, qs[k]) && mem[qs[k]].node.next == PtrAt(qs, k + 1) && qs[k] != parent && qs[k] !in ps
    ensures k > 0 ==> mem[qs[k]].node.prev == PtrAt(qs, k - 1) && qs[k] != item
    ensures item == qs[0]
    ensures ps == [] ==> mem[item].node.prev == NULL
  {
  }

  lemma AppendedKids(mem: Mem, parent: Ptr, ps: seq<Ptr>, item: Ptr, qs: seq<Ptr>)
    requires Kids(mem, parent, ps) && Appendable(mem, parent, ps, item, qs)
    ensures ItemAt(mem, item) && (PtrAt(ps, |ps| - 1) != NULL ==> ItemAt(mem, PtrAt(ps, |ps| - 1)))
    ensures var mem' := Appended(mem, parent, PtrAt(ps, |ps| - 1), item);
            Kids(mem', parent, ps + qs) && Relinked(mem, mem', parent, ps + [item])
  {
    hide Kids, Appended, Relinked, LinkedAt, Appendable;
    QueuedFirst(mem, parent, ps, item, qs);
    AppendedRest(mem, parent, ps, item);
    AppendedDistinct(mem, parent, ps, item, qs);
    var mem', ps' := Appended(mem, parent, PtrAt(ps, |ps| - 1), item), ps + qs;
    assert PtrAt(ps', 0) == PtrAt(ps + [item], 0);
    forall k | 0 <= k < |ps'| ensures LinkedAt(mem', ps', k) {
      if k < |ps| {
        AppendedLinks(mem, parent, ps, item, qs, k);
      } else {
        QueuedLinks(mem, parent, ps, item, qs, k - |ps|);
      }
    }
    MakeKids(mem', parent, ps');
  }

  lemma QueuedFirst(mem: Mem, parent: Ptr, ps: seq<Ptr>, item: Ptr, qs: seq<Ptr>)
    requires Appendable(mem, parent, ps, item, qs)
    ensures qs != [] && qs[0] == item && ItemAt(mem, item) && item != parent && item !in ps
  {
  }

  lemma AppendedDistinct(mem: Mem, parent: Ptr, ps: seq<Ptr>, item: Ptr, qs: seq<Ptr>)
    requires Kids(mem, parent, ps) && Appendable(mem, parent, ps, item, qs)
    ensures parent !in ps + qs && forall a, b :: 0 <= a < b < |ps + qs| ==> (ps + qs)[a] != (ps + qs)[b]
  {
    var both := ps + qs;
    forall a, b | 0 <= a < b < |both| ensures both[a] != both[b] {
      if a < |ps| <= b {
        QueuedAt(mem, parent, ps, item, qs, b - |ps|);
        assert both[a] in ps;
      }
    }
  }

  lemma AppendedLinks(mem: Mem, parent: Ptr, ps: seq<Ptr>, item: Ptr, qs: seq<Ptr>, k: nat)
    requires Kids(mem, parent, ps) && Appendable(mem, parent, ps, item, qs) && k < |ps|
    requires ItemAt(mem, parent) && ItemAt(mem, item)
    requires (PtrAt(ps, |ps| - 1) == NULL || ItemAt(mem, PtrAt(ps, |ps| - 1)))
    ensures LinkedAt(Appended(mem, parent, PtrAt(ps, |ps| - 1), item), ps + qs, k)
  {
    hide Kids, Appendable;
    QueuedFirst(mem, parent, ps, item, qs);
    KidAt(mem, parent, ps, |ps| - 1);
    KidAt(mem, parent, ps, k);
    KidsApart(mem, parent, ps, k, |ps| - 1);
  }

  lemma QueuedLinks(mem: Mem, parent: Ptr, ps: seq<Ptr>, item: Ptr, qs: seq<Ptr>, k: nat)
    requires Kids(mem, parent, ps) && Appendable(mem, parent, ps, item, qs) && k < |qs|
    requires ItemAt(mem, parent) && ItemAt(mem, item)
    requires (PtrAt(ps, |ps| - 1) == NULL || ItemAt(mem, PtrAt(ps, |ps| - 1)))
    ensures LinkedAt(Appended(mem, parent, PtrAt(ps, |ps| - 1), item), ps + qs, |ps| + k)
  {
    hide Kids, Appendable;
    QueuedAt(mem, parent, ps, item, qs, k);
    if ps != [] { KidAt(mem, parent, ps, |ps| - 1); }
  }

  lemma AppendedRest(mem: Mem, parent: Ptr, ps: seq<Ptr>, item: Ptr)
    requires Kids(mem, parent, ps) && ItemAt(mem, item) && item != parent && item !in ps
    ensures ItemAt(mem, parent) && (PtrAt(ps, |ps| - 1) != NULL ==> ItemAt(mem, PtrAt(ps, |ps| - 1)))
    ensures var mem' := Appended(mem, parent, PtrAt(ps, |ps| - 1), item);
            && Relinked(mem, mem', parent, ps + [item]) && ItemAt(mem', parent)
            && mem'[parent].node.child == PtrAt(ps + [item], 0)
  {
    hide Kids;
    KidsHead(mem, parent, ps);
    if ps != [] {
      KidAt(mem, parent, ps, |ps| - 1);
      KidAt(mem, parent, ps, 0);
    }
  }

  /** `add_item_to_array`: the item comes last, together with the siblings behind it if it has any. */
  method AddItemToArray(heap: Heap, parent: Ptr, item: Ptr, ghost ps: seq<Ptr>, ghost qs: seq<Ptr>) returns (ok: bool)
    requires parent != NULL ==> Kids(heap.mem, parent, ps)
    requires parent != NULL && item != NULL ==> Appendable(heap.mem, parent, ps, item, qs)
    modifies heap`mem
    ensures ok <==> parent != NULL && item != NULL
    ensures ok ==> Kids(heap.mem, parent, ps + qs) && Relinked(old(heap.mem), heap.mem, parent, ps + [item])
    ensures !ok ==> heap.mem == old(heap.mem)
  {
    hide Kids, Relinked, Appendable;
    if item == NULL || parent == NULL {
      return false;
    }
    QueuedFirst(heap.mem, parent, ps, item, qs);
    KidsHead(heap.mem, parent, ps);
    AppendedKids(heap.mem, parent, ps, item, qs);
    var child := heap.mem[parent].node.child;
    if child == NULL {
      NoMore(heap.mem, parent, ps, 0);
      heap.Update(parent, heap.mem[parent].node.(child := item));
    } else {
      ghost var k := 0;
      KidAt(heap.mem, parent, ps, 0);
      while heap.mem[child].node.next != NULL
        invariant heap.mem == old(heap.mem)
        invariant 0 <= k < |ps| && child == ps[k] && ItemAt(heap.mem, child)
        invariant heap.mem[child].node.next == PtrAt(ps, k + 1)
        decreases |ps| - k
      {
        child := heap.mem[child].node.next;
        k := k + 1;
        KidAt(heap.mem, parent, ps, k);
      }
      NoMore(heap.mem, parent, ps, k + 1);
      SuffixObject(heap, child, item);
    }
    ok := true;
  }

  // ----- detach -----

  /** What `cJSON_DetachItemViaPointer` writes, step by step. */
  function Detached(mem: Mem, parent: Ptr, item: Ptr): Mem
    requires ItemAt(mem, parent) && ItemAt(mem, item)
    requires var n := mem[item].node; (n.prev == NULL || ItemAt(mem, n.prev)) && (n.next == NULL || ItemAt(mem, n.next))
  {
    var n := mem[item].node;
    var m1 := if n.prev != NULL then mem[n.prev := Item(mem[n.prev].node.(next := n.next))] else mem;
    var m2 := if n.next != NULL then m1[n.next := Item(m1[n.next].node.(prev := n.prev))] else m1;
    var m3 := if item == m2[parent].node.child then m2[parent := Item(m2[parent].node.(child := n.next))] else m2;
    m3[item := Item(m3[item].node.(prev := NULL, next := NULL))]
  }

  lemma DetachedNodes(mem: Mem, parent: Ptr, ps: seq<Ptr>, i: nat)
    requires Kids(mem, parent, ps) && i < |ps|
    ensures ItemAt(mem, parent) && ItemAt(mem, ps[i])
    ensures var n := mem[ps[i]].node; (n.prev == NULL || ItemAt(mem, n.prev)) && (n.next == NULL || ItemAt(mem, n.next))
  {
  }

  /** The links of a child that stays. */
  lemma DetachedLinks(mem: Mem, parent: Ptr, ps: seq<Ptr>, i: nat, j: nat)
    requires Kids(mem, parent, ps) && i < |ps| && j < |ps| && i != j
    requires ItemAt(mem, parent) && ItemAt(mem, ps[i])
    requires var n := mem[ps[i]].node;
             (n.prev == NULL || ItemAt(mem, n.prev)) && (n.next == NULL || ItemAt(mem, n.next))
    ensures var mem' := Detached(mem, parent, ps[i]);
            && ItemAt(mem', ps[j])
            && mem'[ps[j]].node.next == PtrAt(ps, if j + 1 == i then i + 1 else j + 1)
            && mem'[ps[j]].node.prev == PtrAt(ps, if j == i + 1 then i - 1 else j - 1)
  {
    hide Kids;
    KidsHead(mem, parent, ps);
    KidAt(mem, parent, ps, i);
    KidAt(mem, parent, ps, j);
    KidsApart(mem, parent, ps, i, j);
    if i > 0 { KidAt(mem, parent, ps, i - 1); KidsApart(mem, parent, ps, i - 1, j); }
    if i + 1 < |ps| { KidAt(mem, parent, ps, i + 1); KidsApart(mem, parent, ps, i + 1, j); }
  }

  /** One more write to a link. */
  lemma RelinkedMore(mem: Mem, m: Mem, parent: Ptr, ps: seq<Ptr>, p: Ptr, n: Node)
    requires Relinked(mem, m, parent, ps) && ItemAt(m, p)
    requires if p == parent then n == m[p].node.(child := n.child)
             else p in ps && n == m[p].node.(next := n.next, prev := n.prev)
    ensures Relinked(mem, m[p := Item(n)], parent, ps)
  {
  }

  lemma RelinkedNothing(mem: Mem, parent: Ptr, ps: seq<Ptr>)
    requires ItemAt(mem, parent)
    ensures Relinked(mem, mem, parent, ps)
  {
  }

  lemma DetachedRest(mem: Mem, parent: Ptr, ps: seq<Ptr>, i: nat)
    requires Kids(mem, parent, ps) && i < |ps|
    requires ItemAt(mem, parent) && ItemAt(mem, ps[i])
    requires var n := mem[ps[i]].node;
             (n.prev == NULL || ItemAt(mem, n.prev)) && (n.next == NULL || ItemAt(mem, n.next))
    ensures Relinked(mem, Detached(mem, parent, ps[i]), parent, ps)
  {
    hide Kids, Relinked;
    KidsHead(mem, parent, ps);
    KidAt(mem, parent, ps, i);
    if i > 0 { KidAt(mem, parent, ps, i - 1); }
    if i + 1 < |ps| { KidAt(mem, parent, ps, i + 1); }
    var n, item := mem[ps[i]].node, ps[i];
    RelinkedNothing(mem, parent, ps);
    var m1 := if n.prev != NULL then mem[n.prev := Item(mem[n.prev].node.(next := n.next))] else mem;
    if n.prev != NULL { RelinkedMore(mem, mem, parent, ps, n.prev, m1[n.prev].node); }
    var m2 := if n.next != NULL then m1[n.next := Item(m1[n.next].node.(prev := n.prev))] else m1;
    if n.next != NULL { RelinkedMore(mem, m1, parent, ps, n.next, m2[n.next].node); }
    var m3 := if item == m2[parent].node.child then m2[parent := Item(m2[parent].node.(child := n.next))] else m2;
    if item == m2[parent].node.child { RelinkedMore(mem, m2, parent, ps, parent, m3[parent].node); }
    RelinkedMore(mem, m3, parent, ps, item, m3[item].node.(prev := NULL, next := NULL));
  }

  lemma DetachedEnds(mem: Mem, parent: Ptr, ps: seq<Ptr>, i: nat)
    requires Kids(mem, parent, ps) && i < |ps|
    requires ItemAt(mem, parent) && ItemAt(mem, ps[i])
    requires var n := mem[ps[i]].node;
             (n.prev == NULL || ItemAt(mem, n.prev)) && (n.next == NULL || ItemAt(mem, n.next))
    ensures var mem' := Detached(mem, parent, ps[i]);
            Single(mem', ps[i]) && ItemAt(mem', parent) && mem'[parent].node.child == PtrAt(ps, if i == 0 then 1 else 0)
  {
    hide Kids;
    KidsHead(mem, parent, ps);
    KidAt(mem, parent, ps, i);
    KidsApart(mem, parent, ps, i, 0);
    if i > 0 { KidAt(mem, parent, ps, i - 1); }
    if i + 1 < |ps| { KidAt(mem, parent, ps, i + 1); }
  }

  lemma WithoutAt(ps: seq<Ptr>, i: nat, k: int)
    requires i < |ps| && k >= -1
    ensures PtrAt(Without(ps, i), k) == PtrAt(ps, if k < i then k else k + 1)
  {
  }

  lemma DetachedAt(mem: Mem, parent: Ptr, ps: seq<Ptr>, i: nat, k: nat)
    requires Kids(mem, parent, ps) && i < |ps| && k < |ps| - 1
    requires ItemAt(mem, parent) && ItemAt(mem, ps[i])
    requires var n := mem[ps[i]].node;
             (n.prev == NULL || ItemAt(mem, n.prev)) && (n.next == NULL || ItemAt(mem, n.next))
    ensures LinkedAt(Detached(mem, parent, ps[i]), Without(ps, i), k)
  {
    hide Kids, Detached, Without;
    var j := if k < i then k else k + 1;
    DetachedLinks(mem, parent, ps, i, j);
    WithoutAt(ps, i, k);
    WithoutAt(ps, i, k + 1);
    WithoutAt(ps, i, k - 1);
  }

  lemma WithoutPart(ps: seq<Ptr>, i: nat)
    requires i < |ps| && forall a, b :: 0 <= a < b < |ps| ==> ps[a] != ps[b]
    ensures var ps' := Without(ps, i);
            && |ps'| == |ps| - 1 && (forall p :: p in ps' ==> p in ps)
            && (forall a, b :: 0 <= a < b < |ps'| ==> ps'[a] != ps'[b])
  {
  }

  predicate LinkedAt(mem: Mem, ps: seq<Ptr>, k: nat) {
    var p := PtrAt(ps, k);
    ItemAt(mem, p) && mem[p].node.next == PtrAt(ps, k + 1) && mem[p].node.prev == PtrAt(ps, k - 1)
  }

  /** A list whose nodes are linked as they should be. */
  lemma MakeKids(mem: Mem, parent: Ptr, ps: seq<Ptr>)
    requires ItemAt(mem, parent) && mem[parent].node.child == PtrAt(ps, 0) && parent !in ps
    requires forall a, b :: 0 <= a < b < |ps| ==> ps[a] != ps[b]
    requires forall k :: 0 <= k < |ps| ==> LinkedAt(mem, ps, k)
    ensures Kids(mem, parent, ps)
  {
    forall i | 0 <= i < |ps|
      ensures ItemAt(mem, ps[i]) && mem[ps[i]].node.next == PtrAt(ps, i + 1) && mem[ps[i]].node.prev == PtrAt(ps, i - 1)
    {
      assert LinkedAt(mem, ps, i);
    }
  }

  lemma KidsDistinct(mem: Mem, parent: Ptr, ps: seq<Ptr>)
    requires Kids(mem, parent, ps)
    ensures parent !in ps && forall a, b :: 0 <= a < b < |ps| ==> ps[a] != ps[b]
  {
  }

  lemma DetachedKids(mem: Mem, parent: Ptr, ps: seq<Ptr>, i: nat)
    requires Kids(mem, parent, ps) && i < |ps|
    ensures ItemAt(mem, parent) && ItemAt(mem, ps[i])
    ensures var n := mem[ps[i]].node; (n.prev == NULL || ItemAt(mem, n.prev)) && (n.next == NULL || ItemAt(mem, n.next))
    ensures var mem' := Detached(mem, parent, ps[i]);
            Kids(mem', parent, Without(ps, i)) && Single(mem', ps[i]) && Relinked(mem, mem', parent, ps)
  {
    hide Kids, Detached, Relinked, Without;
    DetachedNodes(mem, parent, ps, i);
    DetachedRest(mem, parent, ps, i);
    DetachedEnds(mem, parent, ps, i);
    KidsDistinct(mem, parent, ps);
    WithoutPart(ps, i);
    WithoutAt(ps, i, 0);
    var mem', ps' := Detached(mem, parent, ps[i]), Without(ps, i);
    forall k | 0 <= k < |ps'|
      ensures LinkedAt(mem', ps', k)
    {
      DetachedAt(mem, parent, ps, i, k);
    }
    RelinkedParent(mem, mem', parent, ps);
    MakeKids(mem', parent, ps');
  }

  lemma RelinkedParent(mem: Mem, mem': Mem, parent: Ptr, ps: seq<Ptr>)
    requires Relinked(mem, mem', parent, ps) && ItemAt(mem, parent)
    ensures ItemAt(mem', parent)
  {
  }

  /** `cJSON_DetachItemViaPointer`: the item leaves the list and points nowhere. */
  method DetachItemViaPointer(heap: Heap, parent: Ptr, item: Ptr, ghost ps: seq<Ptr>, ghost i: nat)
    returns (detached: Ptr)
    requires parent != NULL && item != NULL ==> Kids(heap.mem, parent, ps) && i < |ps| && item == ps[i]
    modifies heap`mem
    ensures detached == if parent == NULL then NULL else item
    ensures detached == NULL ==> heap.mem == old(heap.mem)
    ensures detached != NULL ==>
              && Kids(heap.mem, parent, Without(ps, i)) && Single(heap.mem, item)
              && Relinked(old(heap.mem), heap.mem, parent, ps)
  {
    hide Kids, Relinked;
    if parent == NULL || item == NULL {
      return NULL;
    }
    DetachedKids(heap.mem, parent, ps, i);
    var node := heap.mem[item].node;
    if node.prev != NULL {
      heap.Update(node.prev, heap.mem[node.prev].node.(next := node.next));
    }
    if node.next != NULL {
      heap.Update(node.next, heap.mem[node.next].node.(prev := node.prev));
    }
    if item == heap.mem[parent].node.child {
      heap.Update(parent, heap.mem[parent].node.(child := node.next));
    }
    heap.Update(item, heap.mem[item].node.(prev := NULL, next := NULL));
    detached := item;
  }

  /** `cJSON_DetachItemFromArray` */
  method DetachItemFromArray(heap: Heap, parent: Ptr, which: int, ghost ps: seq<Ptr>) returns (detached: Ptr)
    requires parent != NULL ==> Kids(heap.mem, parent, ps)
    modifies heap`mem
    ensures detached == if parent == NULL then NULL else PtrAt(ps, which)
    ensures detached == NULL ==> heap.mem == old(heap.mem)
    ensures detached != NULL ==>
              && Kids(heap.mem, parent, Without(ps, which)) && Single(heap.mem, detached)
              && Relinked(old(heap.mem), heap.mem, parent, ps)
  {
    hide Kids, Relinked;
    if which < 0 {
      return NULL;
    }
    var item := GetItem(heap, parent, which, ps);
    detached := DetachItemViaPointer(heap, parent, item, ps, which);
  }

  // ----- insert -----

  /** What `cJSON_InsertItemInArray` writes when there is a child at the index. */
  function InsertedMem(mem: Mem, parent: Ptr, after: Ptr, newitem: Ptr): Mem
    requires ItemAt(mem, parent) && ItemAt(mem, after) && ItemAt(mem, newitem) && newitem != after
    requires parent != newitem && parent != after
    requires after == mem[parent].node.child || ItemAt(mem, mem[after].node.prev)
  {
    var before := mem[after].node.prev;
    var m1 := mem[newitem := Item(mem[newitem].node.(next := after, prev := before))];
    var m2 := m1[after := Item(m1[after].node.(prev := newitem))];
    if after == mem[parent].node.child then m2[parent := Item(m2[parent].node.(child := newitem))]
    else m2[before := Item(m2[before].node.(next := newitem))]
  }

  lemma InsertedNodes(mem: Mem, parent: Ptr, ps: seq<Ptr>, i: nat, newitem: Ptr)
    requires Kids(mem, parent, ps) && i < |ps| && ItemAt(mem, newitem) && newitem != parent && newitem !in ps
    ensures ItemAt(mem, parent) && ItemAt(mem, ps[i]) && ps[i] != parent && ps[i] != newitem
    ensures ps[i] == mem[parent].node.child || ItemAt(mem, mem[ps[i]].node.prev)
    ensures ps[i] == mem[parent].node.child <==> i == 0
  {
    KidAt(mem, parent, ps, i);
    KidsApart(mem, parent, ps, i, 0);
    if i > 0 { KidAt(mem, parent, ps, i - 1); }
  }

  lemma InsertedLinks(mem: Mem, parent: Ptr, ps: seq<Ptr>, i: nat, newitem: Ptr, j: nat)
    requires Kids(mem, parent, ps) && i < |ps| && j < |ps|
    requires ItemAt(mem, newitem) && newitem != parent && newitem !in ps
    requires ItemAt(mem, parent) && ItemAt(mem, ps[i]) && ps[i] != parent && ps[i] != newitem
    requires ps[i] == mem[parent].node.child || ItemAt(mem, mem[ps[i]].node.prev)
    requires ps[i] == mem[parent].node.child <==> i == 0
    ensures var mem' := InsertedMem(mem, parent, ps[i], newitem);
            && ItemAt(mem', ps[j])
            && mem'[ps[j]].node.next == (if j + 1 == i then newitem else PtrAt(ps, j + 1))
            && mem'[ps[j]].node.prev == (if j == i then newitem else PtrAt(ps, j - 1))
  {
    hide Kids;
    KidAt(mem, parent, ps, i);
    KidAt(mem, parent, ps, j);
    KidsApart(mem, parent, ps, i, j);
    if i > 0 { KidAt(mem, parent, ps, i - 1); KidsApart(mem, parent, ps, i - 1, j); }
  }

  lemma InsertedRest(mem: Mem, parent: Ptr, ps: seq<Ptr>, i: nat, newitem: Ptr)
    requires Kids(mem, parent, ps) && i < |ps| && ItemAt(mem, newitem) && newitem != parent && newitem !in ps
    requires ItemAt(mem, parent) && ItemAt(mem, ps[i]) && ps[i] != parent && ps[i] != newitem
    requires ps[i] == mem[parent].node.child || ItemAt(mem, mem[ps[i]].node.prev)
    requires ps[i] == mem[parent].node.child <==> i == 0
    ensures var mem' := InsertedMem(mem, parent, ps[i], newitem);
            && Relinked(mem, mem', parent, ps + [newitem])
            && ItemAt(mem', newitem) && mem'[newitem].node.next == ps[i] && mem'[newitem].node.prev == PtrAt(ps, i - 1)
            && mem'[parent].node.child == (if i == 0 then newitem else PtrAt(ps, 0))
  {
    hide Kids;
    KidsHead(mem, parent, ps);
    KidAt(mem, parent, ps, i);
    if i > 0 { KidAt(mem, parent, ps, i - 1); }
  }

  lemma InsertedAt(ps: seq<Ptr>, i: nat, newitem: Ptr, k: int)
    requires i < |ps| && k >= -1
    ensures PtrAt(Inserted(ps, i, newitem), k) == if k == i then newitem else PtrAt(ps, if k < i then k else k - 1)
  {
  }

  lemma InsertedPart(ps: seq<Ptr>, i: nat, newitem: Ptr)
    requires i < |ps| && newitem !in ps && forall a, b :: 0 <= a < b < |ps| ==> ps[a] != ps[b]
    ensures var ps' := Inserted(ps, i, newitem);
            && |ps'| == |ps| + 1 && (forall p :: p in ps' ==> p in ps || p == newitem)
            && (forall a, b :: 0 <= a < b < |ps'| ==> ps'[a] != ps'[b])
  {
  }

  lemma InsertedKids(mem: Mem, parent: Ptr, ps: seq<Ptr>, i: nat, newitem: Ptr)
    requires Kids(mem, parent, ps) && i < |ps| && ItemAt(mem, newitem) && newitem != parent && newitem !in ps
    ensures ItemAt(mem, parent) && ItemAt(mem, ps[i]) && ps[i] != parent && ps[i] != newitem
    ensures ps[i] == mem[parent].node.child || ItemAt(mem, mem[ps[i]].node.prev)
    ensures var mem' := InsertedMem(mem, parent, ps[i], newitem);
            Kids(mem', parent, Inserted(ps, i, newitem)) && Relinked(mem, mem', parent, ps + [newitem])
  {
    hide Kids, InsertedMem, Relinked, Inserted;
    InsertedNodes(mem, parent, ps, i, newitem);
    InsertedRest(mem, parent, ps, i, newitem);
    KidsDistinct(mem, parent, ps);
    InsertedPart(ps, i, newitem);
    InsertedAt(ps, i, newitem, 0);
    var mem', ps' := InsertedMem(mem, parent, ps[i], newitem), Inserted(ps, i, newitem);
    forall k | 0 <= k < |ps'|
      ensures LinkedAt(mem', ps', k)
    {
      InsertedAt(ps, i, newitem, k);
      InsertedAt(ps, i, newitem, k + 1);
      InsertedAt(ps, i, newitem, k - 1);
      if k != i {
        InsertedLinks(mem, parent, ps, i, newitem, if k < i then k else k - 1);
      }
    }
    RelinkedParent(mem, mem', parent, ps + [newitem]);
    MakeKids(mem', parent, ps');
  }

  /**
   * `cJSON_InsertItemInArray`: past the end it appends, before the start it does nothing. Between two children
   * the links of the new item are overwritten, whatever they were; at the end its `next` is not.
   */
  method InsertItemInArray(heap: Heap, parent: Ptr, which: int, newitem: Ptr, ghost ps: seq<Ptr>)
    requires parent != NULL ==> Kids(heap.mem, parent, ps)
    requires parent != NULL && 0 <= which < |ps| ==> ItemAt(heap.mem, newitem) && newitem != parent && newitem !in ps
    requires parent != NULL && newitem != NULL && which >= |ps| ==> Appendable(heap.mem, parent, ps, newitem, [newitem])
    modifies heap`mem
    ensures parent == NULL || newitem == NULL || which < 0 ==> heap.mem == old(heap.mem)
    ensures parent != NULL && newitem != NULL && which >= 0 ==>
              && Kids(heap.mem, parent, Inserted(ps, which, newitem))
              && Relinked(old(heap.mem), heap.mem, parent, ps + [newitem])
  {
    hide Kids, Relinked, Appendable;
    if which < 0 {
      return;
    }
    var afterInserted := GetItem(heap, parent, which, ps);
    if afterInserted == NULL {
      if parent != NULL && which < |ps| {
        KidAt(heap.mem, parent, ps, which);
      }
      var _ := AddItemToArray(heap, parent, newitem, ps, [newitem]);
      return;
    }
    InsertedKids(heap.mem, parent, ps, which, newitem);
    var before := heap.mem[afterInserted].node.prev;
    heap.Update(newitem, heap.mem[newitem].node.(next := afterInserted, prev := before));
    heap.Update(afterInserted, heap.mem[afterInserted].node.(prev := newitem));
    if afterInserted == heap.mem[parent].node.child {
      heap.Update(parent, heap.mem[parent].node.(child := newitem));
    } else {
      heap.Update(before, heap.mem[before].node.(next := newitem));
    }
  }

  // ----- replace and delete -----

  /** What `cJSON_ReplaceItemViaPointer` writes before it deletes the item, step by step. */
  function Replaced(mem: Mem, parent: Ptr, item: Ptr, replacement: Ptr): Mem
    requires ItemAt(mem, parent) && ItemAt(mem, item) && ItemAt(mem, replacement)
    requires var n := mem[item].node; (n.prev == NULL || ItemAt(mem, n.prev)) && (n.next == NULL || ItemAt(mem, n.next))
  {
    var n := mem[item].node;
    var m1 := mem[replacement := Item(mem[replacement].node.(next := n.next, prev := n.prev))];
    var m2 := if n.next != NULL then m1[n.next := Item(m1[n.next].node.(prev := replacement))] else m1;
    var m3 := if n.prev != NULL then m2[n.prev := Item(m2[n.prev].node.(next := replacement))] else m2;
    var m4 := if m3[parent].node.child == item then m3[parent := Item(m3[parent].node.(child := replacement))] else m3;
    m4[item := Item(m4[item].node.(next := NULL, prev := NULL))]
  }

  lemma ReplacedLinks(mem: Mem, parent: Ptr, ps: seq<Ptr>, i: nat, replacement: Ptr, j: nat)
    requires Kids(mem, parent, ps) && i < |ps| && j < |ps|
    requires ItemAt(mem, replacement) && replacement != parent && replacement !in ps
    requires ItemAt(mem, parent) && ItemAt(mem, ps[i])
    requires var n := mem[ps[i]].node;
             (n.prev == NULL || ItemAt(mem, n.prev)) && (n.next == NULL || ItemAt(mem, n.next))
    ensures LinkedAt(Replaced(mem, parent, ps[i], replacement), ps[i := replacement], j)
  {
    hide Kids;
    KidsHead(mem, parent, ps);
    KidAt(mem, parent, ps, i);
    KidAt(mem, parent, ps, j);
    KidsApart(mem, parent, ps, i, j);
    if i > 0 { KidAt(mem, parent, ps, i - 1); KidsApart(mem, parent, ps, i - 1, j); }
    if i + 1 < |ps| { KidAt(mem, parent, ps, i + 1); KidsApart(mem, parent, ps, i + 1, j); }
  }

  lemma ReplacedRest(mem: Mem, parent: Ptr, ps: seq<Ptr>, i: nat, replacement: Ptr)
    requires Kids(mem, parent, ps) && i < |ps|
    requires ItemAt(mem, replacement) && replacement != parent && replacement !in ps
    requires ItemAt(mem, parent) && ItemAt(mem, ps[i])
    requires var n := mem[ps[i]].node;
             (n.prev == NULL || ItemAt(mem, n.prev)) && (n.next == NULL || ItemAt(mem, n.next))
    ensures Relinked(mem, Replaced(mem, parent, ps[i], replacement), parent, ps + [replacement])
  {
    hide Kids, Relinked;
    KidsHead(mem, parent, ps);
    KidAt(mem, parent, ps, i);
    if i > 0 { KidAt(mem, parent, ps, i - 1); }
    if i + 1 < |ps| { KidAt(mem, parent, ps, i + 1); }
    var n, all, item := mem[ps[i]].node, ps + [replacement], ps[i];
    RelinkedNothing(mem, parent, all);
    var m1 := mem[replacement := Item(mem[replacement].node.(next := n.next, prev := n.prev))];
    assert replacement == all[|ps|];
    RelinkedMore(mem, mem, parent, all, replacement, m1[replacement].node);
    var m2 := if n.next != NULL then m1[n.next := Item(m1[n.next].node.(prev := replacement))] else m1;
    if n.next != NULL { RelinkedMore(mem, m1, parent, all, n.next, m2[n.next].node); }
    var m3 := if n.prev != NULL then m2[n.prev := Item(m2[n.prev].node.(next := replacement))] else m2;
    if n.prev != NULL { RelinkedMore(mem, m2, parent, all, n.prev, m3[n.prev].node); }
    var m4 := if m3[parent].node.child == item then m3[parent := Item(m3[parent].node.(child := replacement))] else m3;
    if m3[parent].node.child == item { RelinkedMore(mem, m3, parent, all, parent, m4[parent].node); }
    RelinkedMore(mem, m4, parent, all, item, m4[item].node.(next := NULL, prev := NULL));
  }

  lemma ReplacedEnds(mem: Mem, parent: Ptr, ps: seq<Ptr>, i: nat, replacement: Ptr)
    requires Kids(mem, parent, ps) && i < |ps|
    requires ItemAt(mem, replacement) && replacement != parent && replacement !in ps
    requires ItemAt(mem, parent) && ItemAt(mem, ps[i])
    requires var n := mem[ps[i]].node;
             (n.prev == NULL || ItemAt(mem, n.prev)) && (n.next == NULL || ItemAt(mem, n.next))
    ensures var mem' := Replaced(mem, parent, ps[i], replacement);
            && Single(mem', ps[i]) && ItemAt(mem', parent)
            && mem'[parent].node.child == PtrAt(ps[i := replacement], 0)
  {
    hide Kids;
    KidsHead(mem, parent, ps);
    KidAt(mem, parent, ps, i);
    KidsApart(mem, parent, ps, i, 0);
    if i > 0 { KidAt(mem, parent, ps, i - 1); }
    if i + 1 < |ps| { KidAt(mem, parent, ps, i + 1); }
  }

  lemma ReplacedKids(mem: Mem, parent: Ptr, ps: seq<Ptr>, i: nat, replacement: Ptr)
    requires Kids(mem, parent, ps) && i < |ps|
    requires ItemAt(mem, replacement) && replacement != parent && replacement !in ps
    ensures ItemAt(mem, parent) && ItemAt(mem, ps[i])
    ensures var n := mem[ps[i]].node; (n.prev == NULL || ItemAt(mem, n.prev)) && (n.next == NULL || ItemAt(mem, n.next))
    ensures var mem' := Replaced(mem, parent, ps[i], replacement);
            && Kids(mem', parent, ps[i := replacement]) && Single(mem', ps[i])
            && Relinked(mem, mem', parent, ps + [replacement])
  {
    hide Kids, Replaced, Relinked, LinkedAt;
    DetachedNodes(mem, parent, ps, i);
    ReplacedRest(mem, parent, ps, i, replacement);
    ReplacedEnds(mem, parent, ps, i, replacement);
    KidsDistinct(mem, parent, ps);
    var mem', ps' := Replaced(mem, parent, ps[i], replacement), ps[i := replacement];
    forall k | 0 <= k < |ps'| ensures LinkedAt(mem', ps', k) {
      ReplacedLinks(mem, parent, ps, i, replacement, k);
    }
    RelinkedParent(mem, mem', parent, ps + [replacement]);
    MakeKids(mem', parent, ps');
  }

  /** Relinking does not change who owns what. */
  lemma RelinkedOwned(mem: Mem, mem': Mem, parent: Ptr, ps: seq<Ptr>, t: Tree)
    requires Owned(mem, t) && Relinked(mem, mem', parent, ps) && parent !in Foot(t)
    requires forall p :: p in ps && p in Foot(t) ==> p == t.ptr
    ensures Owned(mem', t)
  {
    hide Owned, Foot;
    OwnedExists(mem, t);
    assert t.ptr in Foot(t);
    OwnedFrame(mem, mem', t);
  }

  lemma KidsWithout(mem: Mem, gone: set<Ptr>, parent: Ptr, ps: seq<Ptr>)
    requires Kids(mem, parent, ps) && parent !in gone && forall p :: p in ps ==> p !in gone
    ensures Kids(mem - gone, parent, ps)
  {
    ChainedFrame(mem, mem - gone, ps);
  }

  lemma RelinkedWithout(mem: Mem, mem': Mem, gone: set<Ptr>, parent: Ptr, ps: seq<Ptr>)
    requires Relinked(mem, mem', parent, ps)
    ensures Relinked(mem - gone, mem' - gone, parent, ps)
  {
  }

  lemma SingleDeletable(mem: Mem, t: Tree)
    requires Owned(mem, t) && Single(mem, t.ptr)
    ensures Deletable(mem, t.ptr, [t])
  {
    hide Owned, Foot;
  }

  /**
   * `cJSON_ReplaceItemViaPointer`: the replacement takes the item's place, and everything the item `t` owned
   * is freed.
   */
  method ReplaceItemViaPointer(heap: Heap, parent: Ptr, item: Ptr, replacement: Ptr, ghost ps: seq<Ptr>, ghost i: nat,
                               ghost t: Tree)
    returns (ok: bool)
    requires parent != NULL && item != NULL && replacement != NULL && replacement != item ==>
               && Kids(heap.mem, parent, ps) && i < |ps| && item == ps[i]
               && ItemAt(heap.mem, replacement) && replacement !in ps && replacement != parent
               && Owned(heap.mem, t) && t.ptr == item && parent !in Foot(t) && replacement !in Foot(t)
               && forall p :: p in ps && p in Foot(t) ==> p == item
    modifies heap`mem
    ensures ok <==> parent != NULL && item != NULL && replacement != NULL
    ensures !ok || replacement == item ==> heap.mem == old(heap.mem)
    ensures ok && replacement != item ==>
              && Kids(heap.mem, parent, ps[i := replacement])
              && Relinked(old(heap.mem) - Foot(t), heap.mem, parent, ps + [replacement])
  {
    hide Kids, Relinked, Owned, Foot, FootAll, Deletable;
    if parent == NULL || replacement == NULL || item == NULL {
      return false;
    }
    if replacement == item {
      return true;
    }
    ghost var was := heap.mem;
    ReplacedKids(was, parent, ps, i, replacement);
    KidsDistinct(was, parent, ps);
    Relink(heap, parent, item, replacement);
    RelinkedOwned(was, heap.mem, parent, ps + [replacement], t);
    SingleDeletable(heap.mem, t);
    FootOne(t);
    KidsWithout(heap.mem, Foot(t), parent, ps[i := replacement]);
    RelinkedWithout(was, heap.mem, Foot(t), parent, ps + [replacement]);
    heap.Delete(item, [t]);
    ok := true;
  }

  /** The pointer assignments of `cJSON_ReplaceItemViaPointer`. */
  method Relink(heap: Heap, parent: Ptr, item: Ptr, replacement: Ptr)
    requires ItemAt(heap.mem, parent) && ItemAt(heap.mem, item) && ItemAt(heap.mem, replacement)
    requires replacement != parent && replacement != item
    requires var n := heap.mem[item].node;
             (n.prev == NULL || ItemAt(heap.mem, n.prev)) && (n.next == NULL || ItemAt(heap.mem, n.next))
    modifies heap`mem
    ensures heap.mem == old(Replaced(heap.mem, parent, item, replacement))
  {
    var node := heap.mem[item].node;
    heap.Update(replacement, heap.mem[replacement].node.(next := node.next, prev := node.prev));
    if node.next != NULL {
      heap.Update(node.next, heap.mem[node.next].node.(prev := replacement));
    }
    if node.prev != NULL {
      heap.Update(node.prev, heap.mem[node.prev].node.(next := replacement));
    }
    if heap.mem[parent].node.child == item {
      heap.Update(parent, heap.mem[parent].node.(child := replacement));
    }
    heap.Update(item, heap.mem[item].node.(next := NULL, prev := NULL));
  }

  /** `cJSON_DeleteItemFromArray`: `t` is what the item at the index owns. */
  method DeleteItemFromArray(heap: Heap, parent: Ptr, which: int, ghost ps: seq<Ptr>, ghost t: Tree)
    requires parent != NULL ==> Kids(heap.mem, parent, ps)
    requires parent != NULL && 0 <= which < |ps| ==>
               && Owned(heap.mem, t) && t.ptr == ps[which] && parent !in Foot(t)
               && forall p :: p in ps && p in Foot(t) ==> p == t.ptr
    modifies heap`mem
    ensures parent != NULL && 0 <= which < |ps| ==>
              && Kids(heap.mem, parent, Without(ps, which))
              && Relinked(old(heap.mem) - Foot(t), heap.mem, parent, ps)
    ensures !(parent != NULL && 0 <= which < |ps|) ==> heap.mem == old(heap.mem)
  {
    hide Kids, Relinked, Owned, Foot, FootAll, Deletable, Without;
    ghost var was := heap.mem;
    var item := DetachItemFromArray(heap, parent, which, ps);
    if item != NULL {
      RelinkedOwned(was, heap.mem, parent, ps, t);
      SingleDeletable(heap.mem, t);
      FootOne(t);
      KidsDistinct(was, parent, ps);
      WithoutPart(ps, which);
      WithoutGone(ps, which);
      KidsWithout(heap.mem, Foot(t), parent, Without(ps, which));
      RelinkedWithout(was, heap.mem, Foot(t), parent, ps);
      heap.Delete(item, [t]);
    } else if parent != NULL && 0 <= which < |ps| {
      KidAt(was, parent, ps, which);
    }
  }

  lemma WithoutGone(ps: seq<Ptr>, i: nat)
    requires i < |ps| && forall a, b :: 0 <= a < b < |ps| ==> ps[a] != ps[b]
    ensures ps[i] !in Without(ps, i)
  {
  }

  // ----- what an edit means for ownership -----

  /**
   * After any relinking that leaves `kids'` as the children of the item of `t`, that item owns them, as long as each
   * was owned, they have no block in common, and no block of theirs is among those freed.
   */
  lemma EditedOwned(mem: Mem, mem': Mem, gone: set<Ptr>, ps: seq<Ptr>, t: Tree, kids': seq<Tree>)
    requires Owned(mem, t) && ItemAt(mem, t.ptr) && !mem[t.ptr].node.isReference && OwnedAll(mem, kids')
    requires Relinked(mem - gone, mem', t.ptr, ps) && Kids(mem', t.ptr, Ptrs(kids'))
    requires gone !! Own(t) && gone !! FootAll(kids')
    requires Own(t) !! FootAll(kids') && forall p :: p in ps ==> p !in Own(t)
    requires forall i :: 0 <= i < |kids'| ==> forall p :: p in ps && p in Foot(kids'[i]) ==> p == kids'[i].ptr
    ensures Owned(mem', t.(kids := kids'))
  {
    hide Relinked, Foot, FootAll;
    OwnedAllWithout(mem, gone, kids');
    forall i | 0 <= i < |kids'| ensures Owned(mem', kids'[i]) {
      FootInAll(kids', i);
      RelinkedOwned(mem - gone, mem', t.ptr, ps, kids'[i]);
    }
    EditedSelf(mem, mem', gone, ps, t);
  }

  lemma EditedSelf(mem: Mem, mem': Mem, gone: set<Ptr>, ps: seq<Ptr>, t: Tree)
    requires Owned(mem, t) && Relinked(mem - gone, mem', t.ptr, ps) && forall p :: p in ps ==> p !in Own(t)
    requires gone !! Own(t)
    ensures ItemAt(mem, t.ptr) && ItemAt(mem', t.ptr)
    ensures mem'[t.ptr].node == mem[t.ptr].node.(child := mem'[t.ptr].node.child)
    ensures TextAt(mem', t.value) && TextAt(mem', t.name)
  {
  }

  lemma OwnedParts(mem: Mem, t: Tree)
    requires Owned(mem, t)
    ensures OwnedAll(mem, t.kids) && Own(t) !! FootAll(t.kids) && Foot(t) == Own(t) + FootAll(t.kids)
    ensures forall i :: 0 <= i < |t.kids| ==> Ptrs(t.kids)[i] !in Own(t)
  {
    hide FootAll;
    forall i | 0 <= i < |t.kids| ensures Ptrs(t.kids)[i] !in Own(t) {
      FootInAll(t.kids, i);
    }
  }

  /** The item of another tree of the list is no block of this one. */
  lemma RootsApart(ts: seq<Tree>, i: nat)
    requires Apart(ts) && i < |ts|
    ensures forall p :: p in Ptrs(ts) && p in Foot(ts[i]) ==> p == ts[i].ptr
  {
    hide Foot;
    forall p | p in Ptrs(ts) && p in Foot(ts[i]) ensures p == ts[i].ptr {
      var j :| 0 <= j < |ts| && ts[j].ptr == p;
      assert p in Foot(ts[j]);
    }
  }

  lemma InsertedTrees(ts: seq<Tree>, i: nat, u: Tree)
    ensures FootAll(Inserted(ts, i, u)) == FootAll(ts) + Foot(u)
    ensures Ptrs(Inserted(ts, i, u)) == Inserted(Ptrs(ts), i, u.ptr)
  {
    hide Foot, FootAll;
    FootOne(u);
    if i < |ts| {
      assert ts == ts[..i] + ts[i..];
      FootAppend(ts[..i], ts[i..]);
      FootAppend(ts[..i], [u]);
      FootAppend(ts[..i] + [u], ts[i..]);
    } else {
      FootAppend(ts, [u]);
    }
  }

  /** After an append (`i` past the end) or insert the parent owns its old blocks and those of the new child. */
  lemma InsertKeepsOwnership(mem: Mem, mem': Mem, t: Tree, i: nat, u: Tree)
    requires Owned(mem, t) && ItemAt(mem, t.ptr) && !mem[t.ptr].node.isReference
    requires Owned(mem, u) && Foot(t) !! Foot(u)
    requires Relinked(mem, mem', t.ptr, Ptrs(t.kids) + [u.ptr]) && Kids(mem', t.ptr, Inserted(Ptrs(t.kids), i, u.ptr))
    ensures Owned(mem', t.(kids := Inserted(t.kids, i, u)))
    ensures Foot(t.(kids := Inserted(t.kids, i, u))) == Foot(t) + Foot(u)
  {
    hide Owned, Relinked, Kids, FootAll, Foot, Own, Inserted;
    var kids' := Inserted(t.kids, i, u);
    OwnedParts(mem, t);
    InsertedTrees(t.kids, i, u);
    InsertedApart(mem, t.kids, i, u);
    OwnsRoot(u);
    forall p | p in Ptrs(t.kids) + [u.ptr] ensures p in Ptrs(kids') {
      InsertedHas(Ptrs(t.kids), i, u.ptr, p);
    }
    forall k | 0 <= k < |kids'|
      ensures forall p :: p in Ptrs(t.kids) + [u.ptr] && p in Foot(kids'[k]) ==> p == kids'[k].ptr
    {
      RootsApart(kids', k);
    }
    assert mem - {} == mem;
    EditedOwned(mem, mem', {}, Ptrs(t.kids) + [u.ptr], t, kids');
    OwnedParts(mem', t.(kids := kids'));
    SameOwn(t, kids');
  }

  lemma OwnsRoot(t: Tree)
    ensures t.ptr in Foot(t)
  {
  }

  lemma SameOwn(t: Tree, kids': seq<Tree>)
    ensures Own(t.(kids := kids')) == Own(t)
  {
  }

  lemma InsertedHas(ps: seq<Ptr>, i: nat, x: Ptr, p: Ptr)
    requires p in ps + [x]
    ensures p in Inserted(ps, i, x)
  {
    if p in ps && i < |ps| {
      assert ps == ps[..i] + ps[i..];
    }
  }

  lemma InsertedApart(mem: Mem, ts: seq<Tree>, i: nat, u: Tree)
    requires OwnedAll(mem, ts) && Owned(mem, u) && FootAll(ts) !! Foot(u)
    ensures OwnedAll(mem, Inserted(ts, i, u))
  {
    hide Owned, Foot, FootAll;
    forall k | 0 <= k < |ts| ensures Foot(ts[k]) !! Foot(u) {
      FootInAll(ts, k);
    }
  }

  /** After a detach the parent and the detached item share out the blocks the parent owned. */
  lemma DetachKeepsOwnership(mem: Mem, mem': Mem, t: Tree, i: nat)
    requires Owned(mem, t) && ItemAt(mem, t.ptr) && !mem[t.ptr].node.isReference && i < |t.kids|
    requires Relinked(mem, mem', t.ptr, Ptrs(t.kids)) && Kids(mem', t.ptr, Without(Ptrs(t.kids), i))
    ensures var t' := t.(kids := Without(t.kids, i));
            && Owned(mem', t') && Owned(mem', t.kids[i])
            && Foot(t') !! Foot(t.kids[i]) && Foot(t') + Foot(t.kids[i]) == Foot(t)
  {
    hide Owned, Relinked, Kids, FootAll, Foot, Own;
    var kids' := Without(t.kids, i);
    OwnedParts(mem, t);
    assert Ptrs(kids') == Without(Ptrs(t.kids), i);
    forall k | 0 <= k < |t.kids|
      ensures t.ptr !in Foot(t.kids[k])
      ensures forall p :: p in Ptrs(t.kids) && p in Foot(t.kids[k]) ==> p == t.kids[k].ptr
    {
      RootsApart(t.kids, k);
      FootInAll(t.kids, k);
      RootOwned(t);
    }
    WithoutTrees(t.kids, i);
    assert mem - {} == mem;
    EditedOwned(mem, mem', {}, Ptrs(t.kids), t, kids');
    RelinkedOwned(mem, mem', t.ptr, Ptrs(t.kids), t.kids[i]);
    OwnedParts(mem', t.(kids := kids'));
    SameOwn(t, kids');
  }

  lemma RootOwned(t: Tree)
    ensures t.ptr in Own(t)
  {
  }

  lemma WithoutFoot(ts: seq<Tree>, i: nat)
    requires i < |ts|
    ensures FootAll(ts) == FootAll(Without(ts, i)) + Foot(ts[i])
  {
    hide Foot, FootAll;
    assert ts == ts[..i] + ([ts[i]] + ts[i + 1..]);
    FootAppend(ts[..i], [ts[i]] + ts[i + 1..]);
    FootAppend([ts[i]], ts[i + 1..]);
    FootOne(ts[i]);
    FootAppend(ts[..i], ts[i + 1..]);
  }

  lemma WithoutTrees(ts: seq<Tree>, i: nat)
    requires Apart(ts) && i < |ts|
    ensures Apart(Without(ts, i))
    ensures FootAll(Without(ts, i)) !! Foot(ts[i]) && FootAll(Without(ts, i)) + Foot(ts[i]) == FootAll(ts)
  {
    hide Foot, FootAll;
    var rest := Without(ts, i);
    WithoutFoot(ts, i);
    forall p | p in FootAll(rest) ensures p !in Foot(ts[i]) {
      var k := InSomeFoot(rest, p);
      assert rest[k] == ts[if k < i then k else k + 1];
    }
  }

  lemma ReplacedTrees(mem: Mem, ts: seq<Tree>, i: nat, u: Tree)
    requires OwnedAll(mem, ts) && i < |ts| && Owned(mem, u) && Foot(u) !! FootAll(ts)
    ensures OwnedAll(mem, ts[i := u]) && Ptrs(ts[i := u]) == Ptrs(ts)[i := u.ptr]
    ensures FootAll(ts[i := u]) == FootAll(ts) - Foot(ts[i]) + Foot(u)
  {
    hide Owned, Foot, FootAll;
    WithoutTrees(ts, i);
    WithoutFoot(ts[i := u], i);
    assert Without(ts[i := u], i) == Without(ts, i);
    forall k | 0 <= k < |ts| ensures Foot(ts[k]) !! Foot(u) {
      FootInAll(ts, k);
    }
  }

  /** After a replacement the parent owns what it owned, less the item replaced, and what the replacement owned. */
  lemma ReplaceKeepsOwnership(mem: Mem, mem': Mem, t: Tree, i: nat, u: Tree)
    requires Owned(mem, t) && ItemAt(mem, t.ptr) && !mem[t.ptr].node.isReference && i < |t.kids|
    requires Owned(mem, u) && Foot(t) !! Foot(u)
    requires Relinked(mem - Foot(t.kids[i]), mem', t.ptr, Ptrs(t.kids) + [u.ptr])
    requires Kids(mem', t.ptr, Ptrs(t.kids)[i := u.ptr])
    ensures Owned(mem', t.(kids := t.kids[i := u]))
    ensures Foot(t.(kids := t.kids[i := u])) == Foot(t) - Foot(t.kids[i]) + Foot(u)
  {
    hide Owned, Relinked, Kids, FootAll, Foot, Own;
    var kids', gone := t.kids[i := u], Foot(t.kids[i]);
    OwnedParts(mem, t);
    ReplacedTrees(mem, t.kids, i, u);
    FootInAll(t.kids, i);
    OwnsRoot(u);
    forall k | 0 <= k < |kids'|
      ensures forall p :: p in Ptrs(t.kids) + [u.ptr] && p in Foot(kids'[k]) ==> p == kids'[k].ptr
    {
      RootsApart(kids', k);
      FootInAll(kids', k);
      OwnsRoot(t.kids[i]);
      StillListed(Ptrs(t.kids), i, u.ptr);
    }
    EditedOwned(mem, mem', gone, Ptrs(t.kids) + [u.ptr], t, kids');
    OwnedParts(mem', t.(kids := kids'));
    SameOwn(t, kids');
  }

  lemma StillListed(ps: seq<Ptr>, i: nat, x: Ptr)
    requires i < |ps|
    ensures forall p :: p in ps + [x] ==> p == ps[i] || p in ps[i := x]
  {
    forall p | p in ps + [x] ensures p == ps[i] || p in ps[i := x] {
      var k :| 0 <= k < |ps| + 1 && (ps + [x])[k] == p;
      assert k < |ps| && k != i ==> ps[i := x][k] == p;
      assert ps[i := x][i] == x;
    }
  }

  /** After a deletion the parent owns what it owned, less the item deleted. */
  lemma DeleteKeepsOwnership(mem: Mem, mem': Mem, t: Tree, i: nat)
    requires Owned(mem, t) && ItemAt(mem, t.ptr) && !mem[t.ptr].node.isReference && i < |t.kids|
    requires Relinked(mem - Foot(t.kids[i]), mem', t.ptr, Ptrs(t.kids)) && Kids(mem', t.ptr, Without(Ptrs(t.kids), i))
    ensures Owned(mem', t.(kids := Without(t.kids, i)))
    ensures Foot(t.(kids := Without(t.kids, i))) == Foot(t) - Foot(t.kids[i])
  {
    hide Owned, Relinked, Kids, FootAll, Foot, Own;
    var kids', gone := Without(t.kids, i), Foot(t.kids[i]);
    OwnedParts(mem, t);
    assert Ptrs(kids') == Without(Ptrs(t.kids), i);
    FootInAll(t.kids, i);
    WithoutTrees(t.kids, i);
    forall k | 0 <= k < |t.kids| ensures forall p :: p in Ptrs(t.kids) && p in Foot(t.kids[k]) ==> p == t.kids[k].ptr {
      RootsApart(t.kids, k);
    }
    EditedOwned(mem, mem', gone, Ptrs(t.kids), t, kids');
    OwnedParts(mem', t.(kids := kids'));
    SameOwn(t, kids');
  }

  lemma AppendedTrees(mem: Mem, ts: seq<Tree>, us: seq<Tree>)
    requires OwnedAll(mem, ts) && OwnedAll(mem, us) && FootAll(ts) !! FootAll(us)
    ensures OwnedAll(mem, ts + us) && FootAll(ts + us) == FootAll(ts) + FootAll(us)
    ensures Ptrs(ts + us) == Ptrs(ts) + Ptrs(us)
  {
    hide Owned, Foot, FootAll;
    FootAppend(ts, us);
    forall i, j | 0 <= i < |ts| && 0 <= j < |us| ensures Foot(ts[i]) !! Foot(us[j]) {
      FootInAll(ts, i);
      FootInAll(us, j);
    }
  }

  /** After an append of an item with siblings behind it the parent owns all of them as well. */
  lemma AppendKeepsOwnership(mem: Mem, mem': Mem, t: Tree, us: seq<Tree>)
    requires Owned(mem, t) && ItemAt(mem, t.ptr) && !mem[t.ptr].node.isReference
    requires us != [] && OwnedAll(mem, us) && Foot(t) !! FootAll(us)
    requires Relinked(mem, mem', t.ptr, Ptrs(t.kids) + [us[0].ptr]) && Kids(mem', t.ptr, Ptrs(t.kids) + Ptrs(us))
    ensures Owned(mem', t.(kids := t.kids + us)) && Foot(t.(kids := t.kids + us)) == Foot(t) + FootAll(us)
  {
    hide Owned, Relinked, Kids, FootAll, Foot, Own;
    var kids', ps := t.kids + us, Ptrs(t.kids) + [us[0].ptr];
    OwnedParts(mem, t);
    AppendedTrees(mem, t.kids, us);
    FootInAll(us, 0);
    OwnsRoot(us[0]);
    assert us[0].ptr == Ptrs(us)[0];
    forall k | 0 <= k < |kids'| ensures forall p :: p in ps && p in Foot(kids'[k]) ==> p == kids'[k].ptr {
      RootsApart(kids', k);
    }
    assert mem - {} == mem;
    EditedOwned(mem, mem', {}, ps, t, kids');
    OwnedParts(mem', t.(kids := kids'));
    SameOwn(t, kids');
  }

  // ----- runs of edits -----

  /** An edit of the children, or a step that leaves the blocks of the parent alone. */
  datatype Edit = Append(children: seq<Tree>) | Insert(index: nat, child: Tree) | Detach(index: nat)
                | Replace(index: nat, child: Tree) | Delete(index: nat) | Elsewhere

  /** What the editing functions promise about one edit of the item of `t`. */
  ghost predicate Step(mem: Mem, t: Tree, e: Edit, mem': Mem) {
    match e
    case Append(us) =>
      && us != [] && OwnedAll(mem, us) && Foot(t) !! FootAll(us)
      && Relinked(mem, mem', t.ptr, Ptrs(t.kids) + [us[0].ptr]) && Kids(mem', t.ptr, Ptrs(t.kids) + Ptrs(us))
    case Insert(i, u) =>
      && Owned(mem, u) && Foot(t) !! Foot(u)
      && Relinked(mem, mem', t.ptr, Ptrs(t.kids) + [u.ptr]) && Kids(mem', t.ptr, Inserted(Ptrs(t.kids), i, u.ptr))
    case Detach(i) =>
      i < |t.kids| && Relinked(mem, mem', t.ptr, Ptrs(t.kids)) && Kids(mem', t.ptr, Without(Ptrs(t.kids), i))
    case Replace(i, u) =>
      && i < |t.kids| && Owned(mem, u) && Foot(t) !! Foot(u)
      && Relinked(mem - Foot(t.kids[i]), mem', t.ptr, Ptrs(t.kids) + [u.ptr])
      && Kids(mem', t.ptr, Ptrs(t.kids)[i := u.ptr])
    case Delete(i) =>
      && i < |t.kids| && Relinked(mem - Foot(t.kids[i]), mem', t.ptr, Ptrs(t.kids))
      && Kids(mem', t.ptr, Without(Ptrs(t.kids), i))
    case Elsewhere =>
      forall p :: p in Foot(t) && p in mem ==> p in mem' && mem'[p] == mem[p]
  }

  function Edited(t: Tree, e: Edit): Tree {
    match e
    case Append(us) => t.(kids := t.kids + us)
    case Insert(i, u) => t.(kids := Inserted(t.kids, i, u))
    case Detach(i) => if i < |t.kids| then t.(kids := Without(t.kids, i)) else t
    case Replace(i, u) => if i < |t.kids| then t.(kids := t.kids[i := u]) else t
    case Delete(i) => if i < |t.kids| then t.(kids := Without(t.kids, i)) else t
    case Elsewhere => t
  }

  function EditedAll(t: Tree, edits: seq<Edit>): Tree {
    if edits == [] then t else Edited(EditedAll(t, edits[..|edits| - 1]), edits[|edits| - 1])
  }

  lemma StepKeepsOwnership(mem: Mem, t: Tree, e: Edit, mem': Mem)
    requires Owned(mem, t) && ItemAt(mem, t.ptr) && !mem[t.ptr].node.isReference && Step(mem, t, e, mem')
    ensures Edited(t, e).ptr == t.ptr && Owned(mem', Edited(t, e))
    ensures ItemAt(mem', t.ptr) && !mem'[t.ptr].node.isReference
  {
    hide Owned, Foot, Relinked, Kids;
    match e
    case Append(us) =>
      AppendKeepsOwnership(mem, mem', t, us);
      NeverReference(mem, mem', {}, t, Ptrs(t.kids) + [us[0].ptr]);
    case Insert(i, u) =>
      InsertKeepsOwnership(mem, mem', t, i, u);
      NeverReference(mem, mem', {}, t, Ptrs(t.kids) + [u.ptr]);
    case Detach(i) =>
      DetachKeepsOwnership(mem, mem', t, i);
      NeverReference(mem, mem', {}, t, Ptrs(t.kids));
    case Replace(i, u) =>
      ReplaceKeepsOwnership(mem, mem', t, i, u);
      KidApart(mem, t, i);
      NeverReference(mem, mem', Foot(t.kids[i]), t, Ptrs(t.kids) + [u.ptr]);
    case Delete(i) =>
      DeleteKeepsOwnership(mem, mem', t, i);
      KidApart(mem, t, i);
      NeverReference(mem, mem', Foot(t.kids[i]), t, Ptrs(t.kids));
    case Elsewhere =>
      OwnedExists(mem, t);
      OwnsRoot(t);
      OwnedFrame(mem, mem', t);
  }

  lemma KidApart(mem: Mem, t: Tree, i: nat)
    requires Owned(mem, t) && i < |t.kids|
    ensures t.ptr !in Foot(t.kids[i])
  {
    hide Owned, FootAll, Foot;
    OwnedParts(mem, t);
    FootInAll(t.kids, i);
    RootOwned(t);
  }

  lemma NeverReference(mem: Mem, mem': Mem, gone: set<Ptr>, t: Tree, ps: seq<Ptr>)
    requires ItemAt(mem, t.ptr) && !mem[t.ptr].node.isReference && t.ptr !in gone
    requires Relinked(mem - gone, mem', t.ptr, ps) || (gone == {} && Relinked(mem, mem', t.ptr, ps))
    ensures ItemAt(mem', t.ptr) && !mem'[t.ptr].node.isReference
  {
  }

  lemma EditedAllNext(t: Tree, edits: seq<Edit>, n: nat)
    requires n < |edits|
    ensures EditedAll(t, edits[..n + 1]) == Edited(EditedAll(t, edits[..n]), edits[n])
  {
    hide Edited;
    assert edits[..n + 1][..n] == edits[..n];
  }

  /** Whatever is done to the children, in whatever order: at any time the parent owns all and only what it should. */
  lemma {:induction false} RunKeepsOwnership(mems: seq<Mem>, t: Tree, edits: seq<Edit>, n: nat)
    requires |mems| == |edits| + 1 && Owned(mems[0], t) && ItemAt(mems[0], t.ptr) && !mems[0][t.ptr].node.isReference
    requires forall k :: 0 <= k < |edits| ==> Step(mems[k], EditedAll(t, edits[..k]), edits[k], mems[k + 1])
    requires n <= |edits|
    ensures EditedAll(t, edits[..n]).ptr == t.ptr && Owned(mems[n], EditedAll(t, edits[..n]))
    ensures ItemAt(mems[n], t.ptr) && !mems[n][t.ptr].node.isReference
    decreases n
  {
    hide Owned, Step, Edited;
    if n > 0 {
      RunKeepsOwnership(mems, t, edits, n - 1);
      hide EditedAll, ItemAt;
      EditedAllNext(t, edits, n - 1);
      StepKeepsOwnership(mems[n - 1], EditedAll(t, edits[..n - 1]), edits[n - 1], mems[n]);
    }
  }
}
