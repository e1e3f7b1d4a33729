/**
 * The C heap of cJSON: blocks by address, the item struct, lists of siblings, and who owns which block.
 * A reference to a block that was freed, or freeing a block twice, has no meaning here and cannot be written.
 */
module CHeap {
  import opened CText
  import opened Doubles

  type Ptr = nat
  const NULL: Ptr := 0

  datatype Kind = KInvalid | KFalse | KTrue | KNull | KNumber | KString | KArray | KObject | KRaw

  /** `struct cJSON`, with the two flag bits of `type` apart from its kind. */
  datatype Node = Node(next: Ptr, prev: Ptr, child: Ptr, kind: Kind, isReference: bool, stringIsConst: bool,
                       valuestring: Ptr, valueint: int, number: Double, name: Ptr)

  datatype Block = Item(node: Node) | Text(data: bytes)

  type Mem = map<Ptr, Block>

  /** What `cJSON_New_Item` leaves behind: all zero. */
  const BLANK: Node := Node(NULL, NULL, NULL, KInvalid, false, false, NULL, 0, Finite(0), NULL)

  predicate ItemAt(mem: Mem, p: Ptr) {
    p != NULL && p in mem && mem[p].Item?
  }

  /** NULL or a string block, which has its terminator. */
  predicate TextAt(mem: Mem, p: Ptr) {
    p == NULL || (p in mem && mem[p].Text? && 0 in mem[p].data)
  }

  // ----- lists of siblings -----

  function Head(ps: seq<Ptr>): Ptr {
    if ps == [] then NULL else ps[0]
  }

  function PtrAt(ps: seq<Ptr>, i: int): Ptr {
    if 0 <= i < |ps| then ps[i] else NULL
  }

  /** The `next` pointers run through `ps` and end with NULL. */
  ghost predicate NextLinked(mem: Mem, ps: seq<Ptr>) {
    && (forall i :: 0 <= i < |ps| ==> ItemAt(mem, ps[i]))
    && (forall i :: 0 <= i < |ps| ==> mem[ps[i]].node.next == PtrAt(ps, i + 1))
  }

  /** A well formed list: no item twice, `next` and `prev` inverse to each other, NULL at both ends. */
  ghost predicate Chained(mem: Mem, ps: seq<Ptr>) {
    && NextLinked(mem, ps)
    && (forall i :: 0 <= i < |ps| ==> mem[ps[i]].node.prev == PtrAt(ps, i - 1))
    && (forall i, j :: 0 <= i < j < |ps| ==> ps[i] != ps[j])
  }

  /** The same block but for the links to siblings. */
  predicate SameButLinks(b: Block, b': Block) {
    b == b' || (b.Item? && b'.Item? && b'.node == b.node.(next := b'.node.next, prev := b'.node.prev))
  }

  // ----- ownership -----

  /** The blocks one item owns: itself, its string, its name (0 where there is none), and its children. */
  datatype Tree = Tree(ptr: Ptr, value: Ptr, name: Ptr, kids: seq<Tree>)

  ghost function Opt(p: Ptr): set<Ptr> {
    if p == NULL then {} else {p}
  }

  ghost function Own(t: Tree): set<Ptr> {
    {t.ptr} + Opt(t.value) + Opt(t.name)
  }

  ghost function Foot(t: Tree): (s: set<Ptr>)
    ensures t.ptr in s
    decreases t, 1
  {
    Own(t) + FootAll(t.kids)
  }

  ghost function FootAll(ts: seq<Tree>): set<Ptr>
    decreases ts, 0
  {
    if ts == [] then {} else Foot(ts[0]) + FootAll(ts[1..])
  }

  function Ptrs(ts: seq<Tree>): (ps: seq<Ptr>)
    ensures |ps| == |ts| && forall i :: 0 <= i < |ts| ==> ps[i] == ts[i].ptr
  {
    seq(|ts|, i requires 0 <= i < |ts| => ts[i].ptr)
  }

  ghost predicate Apart(ts: seq<Tree>) {
    forall i, j :: 0 <= i < j < |ts| ==> Foot(ts[i]) !! Foot(ts[j])
  }

  /** The item at `t.ptr` owns exactly the blocks of `t`; a reference owns neither string nor children. */
  ghost predicate Owned(mem: Mem, t: Tree)
    decreases t
  {
    && ItemAt(mem, t.ptr)
    && TextAt(mem, t.value) && TextAt(mem, t.name) && (t.value == t.name ==> t.value == NULL)
    && var n := mem[t.ptr].node;
    && t.value == (if n.isReference then NULL else n.valuestring)
    && t.name == (if n.stringIsConst then NULL else n.name)
    && (if n.isReference then t.kids == [] else n.child == Head(Ptrs(t.kids)) && Chained(mem, Ptrs(t.kids)))
    && Apart(t.kids) && Own(t) !! FootAll(t.kids)
    && forall i :: 0 <= i < |t.kids| ==> Owned(mem, t.kids[i])
  }

  ghost predicate OwnedAll(mem: Mem, ts: seq<Tree>) {
    Apart(ts) && forall i :: 0 <= i < |ts| ==> Owned(mem, ts[i])
  }

  lemma {:induction false} FootInAll(ts: seq<Tree>, i: nat)
    requires i < |ts|
    ensures Foot(ts[i]) <= FootAll(ts)
    decreases |ts|
  {
    hide Foot;
    if i > 0 {
      FootInAll(ts[1..], i - 1);
    }
  }

  lemma {:induction false} InSomeFoot(ts: seq<Tree>, p: Ptr) returns (i: nat)
    requires p in FootAll(ts)
    ensures i < |ts| && p in Foot(ts[i])
    decreases |ts|
  {
    hide Foot;
    if p in Foot(ts[0]) {
      i := 0;
    } else {
      i := InSomeFoot(ts[1..], p);
      i := i + 1;
    }
  }

  lemma {:induction false} FootAppend(a: seq<Tree>, b: seq<Tree>)
    ensures FootAll(a + b) == FootAll(a) + FootAll(b)
    decreases |a|
  {
    hide Foot;
    if a == [] {
      assert a + b == b;
    } else {
      assert (a + b)[1..] == a[1..] + b;
      FootAppend(a[1..], b);
    }
  }

  lemma FootOne(t: Tree)
    ensures FootAll([t]) == Foot(t)
  {
    hide Foot;
    assert [t][1..] == [] && FootAll([]) == {};
  }

  /** All blocks of an owned item exist. */
  lemma {:induction false} OwnedExists(mem: Mem, t: Tree)
    requires Owned(mem, t)
    ensures Foot(t) <= mem.Keys && NULL !in Foot(t)
    decreases t
  {
    forall p | p in FootAll(t.kids) ensures p in mem && p != NULL {
      var i := InSomeFoot(t.kids, p);
      OwnedExists(mem, t.kids[i]);
    }
  }

  lemma OwnedAllExists(mem: Mem, ts: seq<Tree>)
    requires OwnedAll(mem, ts)
    ensures FootAll(ts) <= mem.Keys && NULL !in FootAll(ts)
  {
    hide Owned;
    forall p | p in FootAll(ts) ensures p in mem && p != NULL {
      var i := InSomeFoot(ts, p);
      OwnedExists(mem, ts[i]);
    }
  }

  /** Ownership only depends on the blocks owned, and not on the links of the item itself. */
  lemma {:induction false} OwnedFrame(mem: Mem, mem': Mem, t: Tree)
    requires Owned(mem, t)
    requires forall p :: p in Foot(t) && p != t.ptr ==> p in mem && p in mem' && mem'[p] == mem[p]
    requires t.ptr in mem && t.ptr in mem' && SameButLinks(mem[t.ptr], mem'[t.ptr])
    ensures Owned(mem', t)
    decreases t
  {
    OwnedExists(mem, t);
    forall i | 0 <= i < |t.kids|
      ensures Owned(mem', t.kids[i]) && mem'[t.kids[i].ptr] == mem[t.kids[i].ptr] && t.kids[i].ptr in mem'
    {
      FootInAll(t.kids, i);
      assert Owned(mem, t.kids[i]);
      OwnedExists(mem, t.kids[i]);
      OwnedFrame(mem, mem', t.kids[i]);
    }
    ChainedFrame(mem, mem', Ptrs(t.kids));
  }

  lemma ChainedFrame(mem: Mem, mem': Mem, ps: seq<Ptr>)
    requires forall i :: 0 <= i < |ps| ==> ps[i] in mem && ps[i] in mem' && mem'[ps[i]] == mem[ps[i]]
    ensures Chained(mem, ps) ==> Chained(mem', ps)
    ensures NextLinked(mem, ps) ==> NextLinked(mem', ps)
  {
  }
}
