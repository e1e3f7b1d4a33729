/** The JSON value that a tree of items on the heap stands for, and lists of items as the parser builds them. */
module ItemValues {
  import opened CText
  import opened Doubles
  import opened Strings
  import opened Json
  import opened CHeap

  function StrAt(mem: Mem, p: Ptr): CStr {
    if p != NULL && p in mem && mem[p].Text? then Chars(UpToNul(mem[p].data)) else Missing
  }

  ghost function NameOf(mem: Mem, t: Tree): CStr {
    if ItemAt(mem, t.ptr) then StrAt(mem, mem[t.ptr].node.name) else Missing
  }

  /** The value the items of a tree stand for, owned or only read; the tree of a reference may go on or stop there. */
  ghost function ValueOf(mem: Mem, t: Tree): Json
    decreases t, 1
  {
    if !ItemAt(mem, t.ptr) then Invalid
    else
      var n := mem[t.ptr].node;
      match n.kind
      case KInvalid => Invalid
      case KFalse => False
      case KTrue => True
      case KNull => Null
      case KNumber => Number(n.number)
      case KString => String(StrAt(mem, n.valuestring))
      case KRaw => Raw(StrAt(mem, n.valuestring))
      case KArray => Array(ChainOf(mem, t.kids))
      case KObject => Object(ChainOf(mem, t.kids))
  }

  ghost function ChainOf(mem: Mem, ts: seq<Tree>): Chain
    decreases ts, 0
  {
    if ts == [] then End else Link(NameOf(mem, ts[0]), ValueOf(mem, ts[0]), ChainOf(mem, ts[1..]))
  }

  /** The `valueint` the parser leaves in an item. */
  function IntOf(kind: Kind, number: Double): int {
    if kind.KTrue? then 1 else if kind.KNumber? then Saturated(number) else 0
  }

  /** What the parser makes: no references and no borrowed names anywhere, and each `valueint` as it should be. */
  ghost predicate Plain(mem: Mem, t: Tree)
    decreases t
  {
    && ItemAt(mem, t.ptr) && !mem[t.ptr].node.isReference && !mem[t.ptr].node.stringIsConst
    && mem[t.ptr].node.valueint == IntOf(mem[t.ptr].node.kind, mem[t.ptr].node.number)
    && forall i :: 0 <= i < |t.kids| ==> Plain(mem, t.kids[i])
  }

  /** What reading an item by itself touches. */
  ghost predicate ItemReadable(mem: Mem, p: Ptr) {
    ItemAt(mem, p) && TextAt(mem, mem[p].node.valuestring) && TextAt(mem, mem[p].node.name)
  }

  /**
   * A walk from `t.ptr` along `child` and `next` meets the items of `t` and comes to an end. Whose blocks they are
   * does not matter: references are followed, and a block may be met more than once.
   */
  ghost predicate Readable(mem: Mem, t: Tree)
    decreases t
  {
    && ItemReadable(mem, t.ptr)
    && mem[t.ptr].node.child == Head(Ptrs(t.kids)) && NextLinked(mem, Ptrs(t.kids))
    && forall i :: 0 <= i < |t.kids| ==> Readable(mem, t.kids[i])
  }

  lemma {:induction false} PlainReadable(mem: Mem, t: Tree)
    requires Owned(mem, t) && Plain(mem, t)
    ensures Readable(mem, t)
    decreases t
  {
    forall i | 0 <= i < |t.kids| ensures Readable(mem, t.kids[i]) {
      PlainReadable(mem, t.kids[i]);
    }
  }

  /** The blocks of `was` are all there, as they were. */
  ghost predicate Extends(was: Mem, mem: Mem) {
    forall p :: p in was ==> p in mem && mem[p] == was[p]
  }

  lemma {:induction false} ReadableStays(was: Mem, mem: Mem, t: Tree)
    requires Readable(was, t) && Extends(was, mem)
    ensures Readable(mem, t)
    decreases t
  {
    forall i | 0 <= i < |t.kids| ensures Readable(mem, t.kids[i]) {
      ReadableStays(was, mem, t.kids[i]);
    }
  }

  /** Reading the list `ts` has come to the item `p`, the `k`-th, and `ch` is what the rest stands for. */
  ghost predicate Walk(mem: Mem, ts: seq<Tree>, k: nat, p: Ptr, ch: Chain) {
    && NextLinked(mem, Ptrs(ts)) && (forall i :: 0 <= i < |ts| ==> Readable(mem, ts[i]))
    && k <= |ts| && p == PtrAt(Ptrs(ts), k) && ch == ChainOf(mem, ts[k..])
  }

  lemma WalkStart(mem: Mem, t: Tree)
    requires Readable(mem, t)
    ensures ItemReadable(mem, t.ptr) && Walk(mem, t.kids, 0, mem[t.ptr].node.child, ChainOf(mem, t.kids))
  {
    hide ChainOf;
    assert t.kids[0..] == t.kids;
  }

  lemma WalkStep(mem: Mem, ts: seq<Tree>, k: nat, p: Ptr, ch: Chain)
    requires Walk(mem, ts, k, p, ch) && p != NULL
    ensures k < |ts| && Readable(mem, ts[k]) && ts[k].ptr == p && ItemReadable(mem, p)
    ensures ch.Link? && ch.key == StrAt(mem, mem[p].node.name) && ch.value == ValueOf(mem, ts[k])
    ensures Walk(mem, ts, k + 1, mem[p].node.next, ch.next) && (mem[p].node.next == NULL <==> ch.next.End?)
  {
    hide ValueOf, StrAt, TextAt;
    assert ts[k..][1..] == ts[k + 1..];
    assert p == Ptrs(ts)[k];
    if k + 1 < |ts| { assert ItemAt(mem, Ptrs(ts)[k + 1]); }
  }

  lemma WalkEnd(mem: Mem, ts: seq<Tree>, k: nat, ch: Chain)
    requires Walk(mem, ts, k, NULL, ch)
    ensures ch == End
  {
  }

  ghost predicate PlainAll(mem: Mem, ts: seq<Tree>) {
    forall i :: 0 <= i < |ts| ==> Plain(mem, ts[i])
  }

  /** The blocks of `s` are the same in both heaps but for links. */
  ghost predicate Agree(mem: Mem, mem': Mem, s: set<Ptr>) {
    forall p :: p in s ==> p in mem && p in mem' && SameButLinks(mem[p], mem'[p])
  }

  /** The strings of a plain item are among its blocks, and its children are owned. */
  lemma PlainBlocks(mem: Mem, t: Tree)
    requires Owned(mem, t) && Plain(mem, t)
    ensures ItemAt(mem, t.ptr)
    ensures var n := mem[t.ptr].node;
            && !n.isReference && !n.stringIsConst
            && (n.valuestring != NULL ==> n.valuestring in Foot(t) && n.valuestring in mem)
            && (n.name != NULL ==> n.name in Foot(t) && n.name in mem)
    ensures forall i :: 0 <= i < |t.kids| ==> Owned(mem, t.kids[i]) && Plain(mem, t.kids[i])
    ensures FootAll(t.kids) <= Foot(t)
  {
  }

  lemma {:induction false} PlainFrame(mem: Mem, mem': Mem, t: Tree)
    requires Owned(mem, t) && Plain(mem, t) && Agree(mem, mem', Foot(t))
    ensures Plain(mem', t)
    decreases t
  {
    hide Owned, Foot;
    PlainBlocks(mem, t);
    forall i | 0 <= i < |t.kids| ensures Plain(mem', t.kids[i]) {
      FootInAll(t.kids, i);
      PlainFrame(mem, mem', t.kids[i]);
    }
  }

  lemma {:induction false} ValueFrame(mem: Mem, mem': Mem, t: Tree)
    requires Owned(mem, t) && Plain(mem, t) && Agree(mem, mem', Foot(t))
    ensures ValueOf(mem', t) == ValueOf(mem, t) && NameOf(mem', t) == NameOf(mem, t)
    decreases t, 1
  {
    hide UpToNul, Owned, Plain, Foot, ChainOf;
    PlainBlocks(mem, t);
    ChainFrame(mem, mem', t.kids);
  }

  lemma {:induction false} ChainFrame(mem: Mem, mem': Mem, ts: seq<Tree>)
    requires (forall i :: 0 <= i < |ts| ==> Owned(mem, ts[i]) && Plain(mem, ts[i])) && Agree(mem, mem', FootAll(ts))
    ensures ChainOf(mem', ts) == ChainOf(mem, ts)
    decreases ts, 0
  {
    hide Owned, Plain, Foot, ValueOf, NameOf;
    if ts != [] {
      ValueFrame(mem, mem', ts[0]);
      ChainFrame(mem, mem', ts[1..]);
    }
  }

  // ----- chains grow at the end -----

  function Snoc(ch: Chain, key: CStr, value: Json): (r: Chain)
    ensures r.Link?
  {
    if ch.End? then Link(key, value, End) else Link(ch.key, ch.value, Snoc(ch.next, key, value))
  }

  function Concat(a: Chain, b: Chain): Chain {
    if a.End? then b else Link(a.key, a.value, Concat(a.next, b))
  }

  lemma {:induction false} ConcatSnoc(a: Chain, key: CStr, value: Json, b: Chain)
    ensures Concat(Snoc(a, key, value), b) == Concat(a, Link(key, value, b))
    decreases a
  {
    if a.Link? { ConcatSnoc(a.next, key, value, b); }
  }

  lemma {:induction false} ConcatEnd(a: Chain)
    ensures Concat(a, End) == a
    decreases a
  {
    if a.Link? { ConcatEnd(a.next); }
  }

  lemma {:induction false} ChainSnoc(mem: Mem, ts: seq<Tree>, t: Tree)
    ensures ChainOf(mem, ts + [t]) == Snoc(ChainOf(mem, ts), NameOf(mem, t), ValueOf(mem, t))
    decreases |ts|
  {
    hide ValueOf, NameOf;
    if ts == [] {
      assert ts + [t] == [t] && [t][1..] == [] && ChainOf(mem, []) == End;
    } else {
      assert (ts + [t])[1..] == ts[1..] + [t];
      ChainSnoc(mem, ts[1..], t);
    }
  }

  // ----- the list a parsing loop builds -----

  /** On top of the heap `base`, untouched, there is a well formed list of owned items, and nothing else. */
  ghost predicate Built(base: Mem, mem: Mem, ts: seq<Tree>) {
    && NULL !in base
    && Chained(mem, Ptrs(ts)) && OwnedAll(mem, ts) && PlainAll(mem, ts)
    && FootAll(ts) !! base.Keys && mem.Keys == base.Keys + FootAll(ts)
    && forall p :: p in base ==> mem[p] == base[p]
  }

  const NO_TREE: Tree := Tree(NULL, NULL, NULL, [])

  function Last(ts: seq<Tree>): Tree {
    if ts == [] then NO_TREE else ts[|ts| - 1]
  }

  lemma BuiltNothing(base: Mem)
    requires NULL !in base
    ensures Built(base, base, [])
  {
    assert FootAll([]) == {};
  }

  /** A failed loop frees the whole list and leaves the heap as it was. */
  lemma BuiltUndone(base: Mem, mem: Mem, ts: seq<Tree>)
    requires Built(base, mem, ts)
    ensures mem - FootAll(ts) == base
  {
    hide FootAll;
  }

  lemma OwnedStays(mem: Mem, mem': Mem, t: Tree)
    requires Owned(mem, t) && Plain(mem, t)
    requires forall p :: p in Foot(t) && p in mem ==> p in mem' && mem'[p] == mem[p]
    ensures Owned(mem', t) && Plain(mem', t)
  {
    OwnedExists(mem, t);
    OwnedFrame(mem, mem', t);
    PlainFrame(mem, mem', t);
  }

  /** An item without string or children, with or without a name: what `parse_value` is given to fill in. */
  function Bare(item: Ptr, name: Ptr): Tree {
    Tree(item, NULL, name, [])
  }

  ghost predicate Unfilled(mem: Mem, e: Tree) {
    && e == Bare(e.ptr, e.name) && Owned(mem, e) && Plain(mem, e)
    && ItemAt(mem, e.ptr) && mem[e.ptr].node.valueint == 0
  }

  /** The item of `e` has become that of `t`: new blocks for it only, its links kept, everything else untouched. */
  ghost predicate Grown(mem: Mem, mem': Mem, e: Tree, t: Tree) {
    && t.ptr == e.ptr && Owned(mem', t) && Plain(mem', t)
    && ItemAt(mem, t.ptr) && ItemAt(mem', t.ptr)
    && mem'[t.ptr].node.next == mem[t.ptr].node.next && mem'[t.ptr].node.prev == mem[t.ptr].node.prev
    && Foot(e) <= Foot(t) && (Foot(t) - Foot(e)) !! mem.Keys && mem'.Keys == mem.Keys + Foot(t)
    && forall p :: p in mem && p != t.ptr ==> p in mem' && mem'[p] == mem[p]
  }

  /** The same, and the item has kept its name. */
  ghost predicate Filled(mem: Mem, mem': Mem, e: Tree, t: Tree) {
    Grown(mem, mem', e, t) && t.name == e.name && mem'[t.ptr].node.name == mem[t.ptr].node.name
  }

  /** Filling in the last item of the list. */
  lemma FillLast(base: Mem, mem: Mem, mem': Mem, ts: seq<Tree>, t: Tree)
    requires Built(base, mem, ts) && ts != [] && Grown(mem, mem', Last(ts), t)
    ensures Built(base, mem', ts[..|ts| - 1] + [t])
    ensures ChainOf(mem', ts[..|ts| - 1]) == ChainOf(mem, ts[..|ts| - 1])
  {
    hide Owned, Plain, Foot, FootAll, Chained, OwnedAll, PlainAll;
    var init, last := ts[..|ts| - 1], Last(ts);
    var ts' := init + [t];
    assert ts == init + [last];
    FootAppend(init, [last]);
    FootOne(last);
    FootAppend(init, [t]);
    FootOne(t);
    assert FootAll(ts') == FootAll(ts) + Foot(t);
    FillParts(mem, mem', ts, t);
    FillLinks(mem, mem', ts, t);
  }

  lemma FillParts(mem: Mem, mem': Mem, ts: seq<Tree>, t: Tree)
    requires OwnedAll(mem, ts) && PlainAll(mem, ts) && ts != [] && t.ptr == Last(ts).ptr
    requires Owned(mem', t) && Plain(mem', t)
    requires Foot(Last(ts)) <= Foot(t) && (Foot(t) - Foot(Last(ts))) !! mem.Keys
    requires forall p :: p in mem && p != t.ptr ==> p in mem' && mem'[p] == mem[p]
    ensures OwnedAll(mem', ts[..|ts| - 1] + [t]) && PlainAll(mem', ts[..|ts| - 1] + [t])
    ensures ChainOf(mem', ts[..|ts| - 1]) == ChainOf(mem, ts[..|ts| - 1])
  {
    hide Owned, Plain, Foot, ChainOf;
    var init := ts[..|ts| - 1];
    forall i | 0 <= i < |init|
      ensures Owned(mem', init[i]) && Plain(mem', init[i]) && Foot(init[i]) !! Foot(t) && t.ptr !in Foot(init[i])
    {
      assert init[i] == ts[i] && Foot(ts[i]) !! Foot(ts[|ts| - 1]);
      OwnedExists(mem, ts[i]);
      OwnedStays(mem, mem', init[i]);
    }
    ChainStays(mem, mem', init);
  }

  lemma ChainStays(mem: Mem, mem': Mem, ts: seq<Tree>)
    requires OwnedAll(mem, ts) && PlainAll(mem, ts)
    requires forall i :: 0 <= i < |ts| ==>
               forall p :: p in Foot(ts[i]) && p in mem ==> p in mem' && SameButLinks(mem[p], mem'[p])
    ensures ChainOf(mem', ts) == ChainOf(mem, ts)
  {
    hide Owned, Plain, Foot, SameButLinks;
    OwnedAllExists(mem, ts);
    forall p | p in FootAll(ts) ensures p in mem && p in mem' && SameButLinks(mem[p], mem'[p]) {
      var i := InSomeFoot(ts, p);
    }
    ChainFrame(mem, mem', ts);
  }

  lemma FillLinks(mem: Mem, mem': Mem, ts: seq<Tree>, t: Tree)
    requires Chained(mem, Ptrs(ts)) && ts != [] && t.ptr == Last(ts).ptr
    requires ItemAt(mem, t.ptr) && ItemAt(mem', t.ptr)
    requires mem'[t.ptr].node.next == mem[t.ptr].node.next && mem'[t.ptr].node.prev == mem[t.ptr].node.prev
    requires forall p :: p in mem && p != t.ptr ==> p in mem' && mem'[p] == mem[p]
    ensures Chained(mem', Ptrs(ts[..|ts| - 1] + [t]))
  {
    hide Chained;
    SamePtrs(ts, t);
    SameLinks(mem, mem', Ptrs(ts), t.ptr);
  }

  lemma SamePtrs(ts: seq<Tree>, t: Tree)
    requires ts != [] && t.ptr == Last(ts).ptr
    ensures Ptrs(ts[..|ts| - 1] + [t]) == Ptrs(ts)
  {
  }

  lemma SameLinks(mem: Mem, mem': Mem, ps: seq<Ptr>, x: Ptr)
    requires Chained(mem, ps) && ItemAt(mem, x) && ItemAt(mem', x)
    requires mem'[x].node.next == mem[x].node.next && mem'[x].node.prev == mem[x].node.prev
    requires forall p :: p in mem && p != x ==> p in mem' && mem'[p] == mem[p]
    ensures Chained(mem', ps)
  {
    forall i | 0 <= i < |ps|
      ensures ItemAt(mem', ps[i]) && mem'[ps[i]].node.next == PtrAt(ps, i + 1)
      ensures mem'[ps[i]].node.prev == PtrAt(ps, i - 1)
    {
      assert ItemAt(mem, ps[i]);
    }
  }

  // ----- the ways an item is filled in -----

  lemma BareItem(mem: Mem, e: Tree)
    requires Unfilled(mem, e)
    ensures ItemAt(mem, e.ptr) && TextAt(mem, e.name) && NULL !in Foot(e) && Foot(e) == {e.ptr} + Opt(e.name)
    ensures Foot(e) <= mem.Keys && e.ptr != e.name
    ensures var n := mem[e.ptr].node;
            n.child == NULL && n.valuestring == NULL && n.name == e.name && !n.isReference && !n.stringIsConst
  {
    assert FootAll([]) == {};
    OwnedExists(mem, e);
  }

  /** A number or literal takes no block. */
  lemma FillScalar(mem: Mem, e: Tree, n: Node)
    requires Unfilled(mem, e)
    requires n == mem[e.ptr].node.(kind := n.kind, number := n.number, valueint := IntOf(n.kind, n.number))
    ensures Filled(mem, mem[e.ptr := Item(n)], e, e)
  {
    BareItem(mem, e);
  }

  /** A string takes one block. */
  lemma FillText(mem: Mem, e: Tree, p: Ptr, data: bytes, kind: Kind)
    requires Unfilled(mem, e) && kind == KString
    requires p != NULL && p !in mem && 0 in data
    ensures Filled(mem, mem[p := Text(data)][e.ptr := Item(mem[e.ptr].node.(kind := kind, valuestring := p))],
                   e, e.(value := p))
  {
    BareItem(mem, e);
    assert FootAll([]) == {};
  }

  /** A string that has been read becomes the name. */
  lemma FillName(mem: Mem, mem': Mem, e: Tree, t: Tree)
    requires Unfilled(mem, e) && e.name == NULL
    requires Filled(mem, mem', e, t) && t == e.(value := t.value) && mem'[t.ptr].node.kind == KString
    ensures var n := mem'[t.ptr].node;
            var mem'' := mem'[t.ptr := Item(n.(name := n.valuestring, valuestring := NULL))];
            && Grown(mem, mem'', e, Bare(e.ptr, t.value)) && Unfilled(mem'', Bare(e.ptr, t.value))
            && n.valuestring == t.value
  {
    BareItem(mem, e);
    assert FootAll([]) == {};
    PlainBlocks(mem', t);
  }

  /** A list that has been built becomes the children of the item. */
  lemma Adopt(base: Mem, mem: Mem, ts: seq<Tree>, e: Tree, kind: Kind)
    requires Built(base, mem, ts)
    requires Unfilled(base, e) && ItemAt(mem, e.ptr) && (kind == KArray || kind == KObject)
    ensures var mem' := mem[e.ptr := Item(mem[e.ptr].node.(kind := kind, child := Head(Ptrs(ts))))];
            Filled(base, mem', e, e.(kids := ts)) && ChainOf(mem', ts) == ChainOf(mem, ts)
  {
    hide Owned, Plain, Foot, FootAll, ChainOf;
    BareItem(base, e);
    var mem' := mem[e.ptr := Item(mem[e.ptr].node.(kind := kind, child := Head(Ptrs(ts))))];
    forall i | 0 <= i < |ts| ensures Owned(mem', ts[i]) && Plain(mem', ts[i]) && ts[i].ptr != e.ptr {
      FootInAll(ts, i);
      OwnedStays(mem, mem', ts[i]);
    }
    forall i | 0 <= i < |ts|
      ensures forall p :: p in Foot(ts[i]) && p in mem ==> p in mem' && SameButLinks(mem[p], mem'[p])
    {
      FootInAll(ts, i);
    }
    ChainStays(mem, mem', ts);
    AdoptOwned(base, mem, ts, e, kind);
  }

  lemma AdoptOwned(base: Mem, mem: Mem, ts: seq<Tree>, e: Tree, kind: Kind)
    requires Built(base, mem, ts)
    requires Unfilled(base, e) && ItemAt(mem, e.ptr) && (kind == KArray || kind == KObject)
    requires var mem' := mem[e.ptr := Item(mem[e.ptr].node.(kind := kind, child := Head(Ptrs(ts))))];
             forall i :: 0 <= i < |ts| ==> Owned(mem', ts[i]) && Plain(mem', ts[i]) && ts[i].ptr != e.ptr
    ensures var mem' := mem[e.ptr := Item(mem[e.ptr].node.(kind := kind, child := Head(Ptrs(ts))))];
            Filled(base, mem', e, e.(kids := ts))
  {
    hide Owned, Plain, FootAll;
    var mem' := mem[e.ptr := Item(mem[e.ptr].node.(kind := kind, child := Head(Ptrs(ts))))];
    BareItem(base, e);
    ChainedFrame(mem, mem', Ptrs(ts));
    assert Foot(e.(kids := ts)) == Foot(e) + FootAll(ts);
    AdoptedKids(base, mem', ts, e);
  }

  lemma AdoptedKids(base: Mem, mem': Mem, ts: seq<Tree>, e: Tree)
    requires Unfilled(base, e) && ItemAt(mem', e.ptr) && base[e.ptr].Item?
    requires mem'[e.ptr].node == base[e.ptr].node.(kind := mem'[e.ptr].node.kind, child := Head(Ptrs(ts)))
    requires !mem'[e.ptr].node.kind.KTrue? && !mem'[e.ptr].node.kind.KNumber?
    requires Chained(mem', Ptrs(ts)) && Apart(ts) && FootAll(ts) !! base.Keys
    requires e.name != NULL ==> e.name in mem' && e.name in base && mem'[e.name] == base[e.name]
    requires forall i :: 0 <= i < |ts| ==> Owned(mem', ts[i]) && Plain(mem', ts[i])
    ensures Owned(mem', e.(kids := ts)) && Plain(mem', e.(kids := ts))
  {
    hide FootAll, Chained, Apart;
    BareItem(base, e);
  }

  // ----- a new item at the end of the list -----

  function WithNew(mem: Mem, last: Ptr, item: Ptr): Mem
    requires last == NULL || ItemAt(mem, last)
  {
    if last == NULL then mem[item := Item(BLANK)]
    else mem[item := Item(BLANK.(prev := last))][last := Item(mem[last].node.(next := item))]
  }

  lemma AppendBlank(base: Mem, mem: Mem, ts: seq<Tree>, item: Ptr)
    requires Built(base, mem, ts) && item != NULL && item !in mem
    ensures Last(ts).ptr == NULL || ItemAt(mem, Last(ts).ptr)
    ensures Built(base, WithNew(mem, Last(ts).ptr, item), ts + [Bare(item, NULL)])
    ensures ChainOf(WithNew(mem, Last(ts).ptr, item), ts) == ChainOf(mem, ts)
  {
    hide Owned, Plain, Foot, FootAll, ChainOf, OwnedAll, PlainAll, Chained, WithNew;
    LastItem(mem, ts);
    var mem', e := WithNew(mem, Last(ts).ptr, item), Bare(item, NULL);
    WithNewSame(mem, Last(ts).ptr, item);
    BlankOwned(mem', e);
    FootAppend(ts, [e]);
    FootOne(e);
    OwnedAllExists(mem, ts);
    AppendOwned(mem, mem', ts, e);
    AppendLinks(mem, Ptrs(ts), item);
    assert Ptrs(ts + [e]) == Ptrs(ts) + [item];
    LastInFoot(ts);
  }

  lemma WithNewSame(mem: Mem, last: Ptr, item: Ptr)
    requires (last == NULL || ItemAt(mem, last)) && item != NULL && item !in mem
    ensures var mem' := WithNew(mem, last, item);
            && mem'.Keys == mem.Keys + {item}
            && (forall p :: p in mem && p != last ==> mem'[p] == mem[p])
            && (last in mem ==> SameButLinks(mem[last], mem'[last]))
            && SameButLinks(Item(BLANK), mem'[item])
  {
  }

  lemma AppendOwned(mem: Mem, mem': Mem, ts: seq<Tree>, e: Tree)
    requires OwnedAll(mem, ts) && PlainAll(mem, ts)
    requires Owned(mem', e) && Plain(mem', e) && Foot(e) !! mem.Keys
    requires forall p :: p in mem && p != Last(ts).ptr ==> p in mem' && mem'[p] == mem[p]
    requires Last(ts).ptr in mem ==> Last(ts).ptr in mem' && SameButLinks(mem[Last(ts).ptr], mem'[Last(ts).ptr])
    ensures OwnedAll(mem', ts + [e]) && PlainAll(mem', ts + [e]) && ChainOf(mem', ts) == ChainOf(mem, ts)
  {
    hide Owned, Plain, Foot, FootAll, ChainOf, SameButLinks;
    var last := Last(ts).ptr;
    forall i | 0 <= i < |ts|
      ensures Owned(mem', ts[i]) && Plain(mem', ts[i]) && Agree(mem, mem', Foot(ts[i])) && Foot(ts[i]) !! Foot(e)
    {
      LastApart(ts, i);
      OwnedExists(mem, ts[i]);
      OwnedStaysLinked(mem, mem', ts[i], last);
    }
    ChainStays(mem, mem', ts);
  }

  lemma LastApart(ts: seq<Tree>, i: nat)
    requires Apart(ts) && i < |ts|
    ensures Last(ts).ptr in Foot(ts[i]) ==> Last(ts).ptr == ts[i].ptr
  {
    hide Foot;
    assert Last(ts).ptr in Foot(ts[|ts| - 1]);
  }

  lemma LastInFoot(ts: seq<Tree>)
    ensures ts != [] ==> Last(ts).ptr in FootAll(ts)
  {
    if ts != [] {
      FootInAll(ts, |ts| - 1);
    }
  }

  lemma LastItem(mem: Mem, ts: seq<Tree>)
    requires Chained(mem, Ptrs(ts))
    ensures Last(ts).ptr == NULL <==> ts == []
    ensures Last(ts).ptr == PtrAt(Ptrs(ts), |ts| - 1)
    ensures ts != [] ==> ItemAt(mem, Last(ts).ptr)
  {
    if ts != [] {
      assert Ptrs(ts)[|ts| - 1] == Last(ts).ptr;
    }
  }

  lemma BlankOwned(mem: Mem, e: Tree)
    requires e == Bare(e.ptr, NULL) && ItemAt(mem, e.ptr) && SameButLinks(Item(BLANK), mem[e.ptr])
    ensures Owned(mem, e) && Plain(mem, e) && Foot(e) == {e.ptr}
  {
    assert FootAll([]) == {};
  }

  lemma OwnedStaysLinked(mem: Mem, mem': Mem, t: Tree, last: Ptr)
    requires Owned(mem, t) && Plain(mem, t) && (last in Foot(t) ==> last == t.ptr)
    requires forall p :: p in mem && p != last ==> p in mem' && mem'[p] == mem[p]
    requires last in mem ==> last in mem' && SameButLinks(mem[last], mem'[last])
    ensures Owned(mem', t) && Plain(mem', t) && Agree(mem, mem', Foot(t))
  {
    hide Owned, Plain, Foot;
    OwnedExists(mem, t);
    assert t.ptr in Foot(t);
    OwnedFrame(mem, mem', t);
    PlainFrame(mem, mem', t);
  }

  lemma AppendLinks(mem: Mem, ps: seq<Ptr>, item: Ptr)
    requires Chained(mem, ps) && item != NULL && item !in mem
    ensures PtrAt(ps, |ps| - 1) == NULL || ItemAt(mem, PtrAt(ps, |ps| - 1))
    ensures Chained(WithNew(mem, PtrAt(ps, |ps| - 1), item), ps + [item])
  {
    var mem' := WithNew(mem, PtrAt(ps, |ps| - 1), item);
    var ps' := ps + [item];
    forall i | 0 <= i < |ps'|
      ensures ItemAt(mem', ps'[i]) && mem'[ps'[i]].node.next == PtrAt(ps', i + 1)
      ensures mem'[ps'[i]].node.prev == PtrAt(ps', i - 1)
    {
      if i < |ps| {
        assert ItemAt(mem, ps[i]);
      }
    }
  }
}
