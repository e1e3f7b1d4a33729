/** Lists of items while they are being built on top of a heap, and whole trees standing alone on one. */
module BuiltLists {
  import opened Strings
  import opened CHeap
  import opened ItemValues
  import opened Ownership

  lemma ListEnds(base: Mem, mem: Mem, ts: seq<Tree>)
    requires Built(base, mem, ts)
    ensures Head(Ptrs(ts)) == NULL <==> ts == []
    ensures Last(ts).ptr == NULL <==> ts == []
    ensures Last(ts).ptr != NULL ==> ItemAt(mem, Last(ts).ptr) && ts != []
  {
    hide OwnedAll, PlainAll, FootAll;
    LastItem(mem, ts);
  }

  lemma ListHead(ts: seq<Tree>, e: Tree)
    ensures Head(Ptrs(ts + [e])) == if ts == [] then e.ptr else Head(Ptrs(ts))
  {
  }

  lemma ListReady(base: Mem, mem: Mem, ts: seq<Tree>)
    requires Built(base, mem, ts)
    ensures NULL !in mem
  {
    hide PlainAll, Foot, FootAll;
    OwnedAllExists(mem, ts);
  }

  lemma ListItem(base: Mem, mem: Mem, ts: seq<Tree>, e: Tree)
    requires Built(base, mem, ts + [e])
    ensures Owned(mem, e) && Plain(mem, e) && NULL !in mem && Last(ts + [e]) == e
  {
    hide Owned, Plain, Foot, FootAll;
    assert (ts + [e])[|ts|] == e;
    ListReady(base, mem, ts + [e]);
  }

  /** A blank item at the end of the list is ready to be filled in. */
  lemma ListBlank(base: Mem, mem: Mem, ts: seq<Tree>, item: Ptr)
    requires Built(base, mem, ts + [Bare(item, NULL)]) && ItemAt(mem, item) && mem[item].node.valueint == 0
    ensures Unfilled(mem, Bare(item, NULL)) && NULL !in mem && Last(ts + [Bare(item, NULL)]) == Bare(item, NULL)
  {
    hide Built, Owned, Plain;
    ListItem(base, mem, ts, Bare(item, NULL));
  }

  lemma ListDeletable(base: Mem, mem: Mem, ts: seq<Tree>)
    requires Built(base, mem, ts)
    ensures Deletable(mem, Head(Ptrs(ts)), ts)
  {
    hide PlainAll, FootAll;
  }

  lemma FillNew(base: Mem, mem: Mem, mem': Mem, ts: seq<Tree>, e: Tree, t: Tree)
    requires Built(base, mem, ts + [e]) && Grown(mem, mem', e, t)
    ensures Built(base, mem', ts + [t])
    ensures ChainOf(mem', ts) == ChainOf(mem, ts)
    ensures ChainOf(mem', ts + [t]) == Snoc(ChainOf(mem, ts), NameOf(mem', t), ValueOf(mem', t))
    ensures Head(Ptrs(ts + [t])) == Head(Ptrs(ts + [e])) && Last(ts + [t]) == t
  {
    hide Built, ChainOf, NameOf, ValueOf, Owned, Plain, Foot, FootAll;
    var list := ts + [e];
    assert list[..|list| - 1] == ts;
    FillLast(base, mem, mem', list, t);
    ChainSnoc(mem', ts, t);
    assert t.ptr == e.ptr;
  }

  lemma FilledParts(was: Mem, mem: Mem, e: Tree, t: Tree)
    requires Filled(was, mem, e, t)
    ensures Grown(was, mem, e, t) && ItemAt(was, e.ptr) && ItemAt(mem, t.ptr) && t.ptr == e.ptr && t.name == e.name
    ensures mem[t.ptr].node.name == was[t.ptr].node.name
  {
  }

  lemma Unnamed(mem: Mem, t: Tree)
    requires ItemAt(mem, t.ptr) && mem[t.ptr].node.name == NULL
    ensures NameOf(mem, t) == Missing
  {
  }

  /** A tree of its own on top of the heap `was`, without siblings. */
  ghost predicate Root(was: Mem, mem: Mem, t: Tree) {
    Built(was, mem, [t])
  }

  lemma RootLinks(was: Mem, mem: Mem, t: Tree)
    requires Root(was, mem, t)
    ensures ItemAt(mem, t.ptr) && mem[t.ptr].node.next == NULL && mem[t.ptr].node.prev == NULL
    ensures Owned(mem, t) && Plain(mem, t) && Foot(t) !! was.Keys && mem.Keys == was.Keys + Foot(t)
    ensures forall p :: p in was ==> mem[p] == was[p]
  {
    hide Owned, Plain, Foot;
    FootOne(t);
    assert Ptrs([t])[0] == t.ptr && [t][0] == t;
  }

  /** The result of a parse can be read to its end, whatever is put on the heap later. */
  lemma RootReadable(was: Mem, mem: Mem, t: Tree, later: Mem)
    requires Root(was, mem, t) && Extends(mem, later)
    ensures Readable(later, t) && ValueOf(later, t) == ValueOf(mem, t) && NameOf(later, t) == NameOf(mem, t)
  {
    hide Root, Owned, Plain, Foot, Readable, ValueOf, NameOf;
    RootLinks(was, mem, t);
    PlainReadable(mem, t);
    ReadableStays(mem, later, t);
    OwnedExists(mem, t);
    ValueFrame(mem, later, t);
  }

  lemma RootBlank(was: Mem, item: Ptr)
    requires NULL !in was && item != NULL && item !in was
    ensures var mem, e := was[item := Item(BLANK)], Bare(item, NULL);
            Root(was, mem, e) && Unfilled(mem, e) && NULL !in mem
  {
    hide Built, ChainOf, Owned, Plain;
    BuiltNothing(was);
    AppendBlank(was, was, [], item);
    assert [] + [Bare(item, NULL)] == [Bare(item, NULL)];
    ListItem(was, was[item := Item(BLANK)], [], Bare(item, NULL));
  }

  lemma RootFilled(was: Mem, mem: Mem, mem': Mem, e: Tree, t: Tree)
    requires Root(was, mem, e) && Filled(mem, mem', e, t)
    ensures Root(was, mem', t) && t.ptr == e.ptr
  {
    hide Built, Grown, Owned, Plain;
    assert [] + [e] == [e] && [] + [t] == [t];
    FillNew(was, mem, mem', [], e, t);
  }

  lemma RootHead(t: Tree)
    ensures Head(Ptrs([t])) == t.ptr
  {
  }

  lemma RootDiscarded(was: Mem, mem: Mem, t: Tree)
    requires Root(was, mem, t)
    ensures Deletable(mem, t.ptr, [t]) && mem - FootAll([t]) == was
  {
    hide Built, Deletable, FootAll;
    RootHead(t);
    ListDeletable(was, mem, [t]);
    BuiltUndone(was, mem, [t]);
  }
}
