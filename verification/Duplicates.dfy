/** `cJSON_Duplicate`: a copy that owns blocks of its own and stands for the same value, references and all. */
module Duplicates {
  import opened CText
  import opened StringProofs
  import opened Json
  import opened CHeap
  import opened ItemValues
  import opened Ownership
  import opened BuiltLists
  import opened Siblings
  import opened ParserSteps
  import C = Compare

  /** What a copy that is not recursive stands for: arrays and objects lose their children. */
  function Shallow(v: Json): Json {
    match v
    case Array(_) => Array(End)
    case Object(_) => Object(End)
    case _ => v
  }

  /**
   * The item of the copy has the type, number and strings of the original. It is no reference; a name that was
   * borrowed is borrowed again, from the same block.
   */
  ghost predicate SameFields(was: Mem, item: Ptr, mem: Mem, copy: Ptr) {
    && ItemAt(was, item) && ItemAt(mem, copy)
    && var n, n' := was[item].node, mem[copy].node;
    && n'.kind == n.kind && n'.valueint == n.valueint && n'.number == n.number
    && !n'.isReference && n'.stringIsConst == n.stringIsConst && (n.stringIsConst ==> n'.name == n.name)
    && StrAt(mem, n'.valuestring) == StrAt(was, n.valuestring) && StrAt(mem, n'.name) == StrAt(was, n.name)
  }

  /** The same item by item, all the way down. */
  ghost predicate Twin(was: Mem, t: Tree, mem: Mem, t': Tree)
    decreases t
  {
    && SameFields(was, t.ptr, mem, t'.ptr) && |t'.kids| == |t.kids|
    && forall i :: 0 <= i < |t.kids| ==> Twin(was, t.kids[i], mem, t'.kids[i])
  }

  /** Twins have one name and one value. */
  lemma {:induction false} TwinValue(was: Mem, t: Tree, mem: Mem, t': Tree)
    requires Twin(was, t, mem, t')
    ensures NameOf(mem, t') == NameOf(was, t) && ValueOf(mem, t') == ValueOf(was, t)
    decreases t, 1
  {
    hide StrAt, ChainOf;
    TwinChain(was, t.kids, mem, t'.kids);
  }

  lemma {:induction false} TwinChain(was: Mem, ts: seq<Tree>, mem: Mem, ts': seq<Tree>)
    requires |ts'| == |ts| && forall i :: 0 <= i < |ts| ==> Twin(was, ts[i], mem, ts'[i])
    ensures ChainOf(mem, ts') == ChainOf(was, ts)
    decreases ts, 0
  {
    hide Twin, ValueOf, NameOf;
    if ts != [] {
      TwinValue(was, ts[0], mem, ts'[0]);
      TwinChain(was, ts[1..], mem, ts'[1..]);
    }
  }

  lemma ShallowValue(was: Mem, t: Tree, mem: Mem, t': Tree)
    requires SameFields(was, t.ptr, mem, t'.ptr) && t'.kids == []
    ensures NameOf(mem, t') == NameOf(was, t) && ValueOf(mem, t') == Shallow(ValueOf(was, t))
  {
    hide StrAt, ChainOf;
    NoLinks(mem);
  }

  /** No item of the tree is a reference. */
  ghost predicate ReferenceFree(mem: Mem, t: Tree)
    decreases t
  {
    && ItemAt(mem, t.ptr) && !mem[t.ptr].node.isReference
    && forall i :: 0 <= i < |t.kids| ==> ReferenceFree(mem, t.kids[i])
  }

  lemma {:induction false} TwinReferenceFree(was: Mem, t: Tree, mem: Mem, t': Tree)
    requires Twin(was, t, mem, t')
    ensures ReferenceFree(mem, t')
    decreases t
  {
    hide StrAt;
    forall i | 0 <= i < |t'.kids| ensures ReferenceFree(mem, t'.kids[i]) {
      TwinReferenceFree(was, t.kids[i], mem, t'.kids[i]);
    }
  }

  /** A tree of blocks that are all new, on top of the heap `was`; its item has no siblings. */
  ghost predicate Alone(was: Mem, mem: Mem, t: Tree) {
    && NULL !in was && Extends(was, mem)
    && Owned(mem, t) && Single(mem, t.ptr)
    && Foot(t) !! was.Keys && mem.Keys == was.Keys + Foot(t)
  }

  /** Deleting it brings the old heap back: nothing is freed twice, and no borrowed name is freed at all. */
  lemma AloneDiscarded(was: Mem, mem: Mem, t: Tree)
    requires Alone(was, mem, t)
    ensures Deletable(mem, t.ptr, [t]) && mem - FootAll([t]) == was
  {
    hide Owned, Foot;
    SingleDeletable(mem, t);
    FootOne(t);
  }

  lemma AloneFacts(was: Mem, mem: Mem, t: Tree)
    requires Alone(was, mem, t)
    ensures NULL !in was && NULL !in mem && Extends(was, mem) && Owned(mem, t) && ItemAt(mem, t.ptr)
    ensures t.ptr !in was && Foot(t) !! was.Keys && Foot(t) <= mem.Keys
  {
    hide Owned, Foot;
    OwnedExists(mem, t);
    OwnsRoot(t);
  }

  // ----- the fields -----

  /** `cJSON_strdup` */
  method Strdup(heap: Heap, p: Ptr) returns (copy: Ptr)
    requires TextAt(heap.mem, p)
    modifies heap
    ensures p == NULL ==> copy == NULL && heap.mem == old(heap.mem) && heap.starved == old(heap.starved)
    ensures p != NULL && copy == NULL ==> heap.mem == old(heap.mem) && heap.starved
    ensures copy != NULL ==>
              && copy !in old(heap.mem) && copy in heap.mem && heap.mem[copy].Text? && 0 in heap.mem[copy].data
              && heap.mem == old(heap.mem)[copy := heap.mem[copy]] && heap.starved == old(heap.starved)
              && StrAt(heap.mem, copy) == old(StrAt(heap.mem, p))
  {
    hide UpToNul;
    if p == NULL {
      return NULL;
    }
    var text: bytes := UpToNul(heap.mem[p].data);
    CopiedText(text);
    copy := heap.Allocate(Text(text + [0]));
    assert (text + [0])[|text|] == 0;
  }

  lemma CopiedText(text: cstring)
    ensures UpToNul(text + [0]) == text
  {
    hide UpToNul;
    UpToFirstNul(text, []);
    UpToNulWhole(text);
    assert text + [0] + [] == text + [0];
  }

  lemma BlankAlone(was: Mem, item: Ptr, n: Node)
    requires NULL !in was && item != NULL && item !in was
    requires n == BLANK.(kind := n.kind, valueint := n.valueint, number := n.number, stringIsConst := n.stringIsConst)
    ensures Alone(was, was[item := Item(n)], Bare(item, NULL))
  {
    assert FootAll([]) == {};
  }

  /** The copy has its value string: one block more. */
  lemma ValueCopied(was: Mem, mem: Mem, e: Tree, p: Ptr, data: bytes)
    requires Alone(was, mem, e) && e == Bare(e.ptr, NULL) && p != NULL && p !in mem && 0 in data
    requires ItemAt(mem, e.ptr) && !mem[e.ptr].node.isReference
    ensures Alone(was, mem[p := Text(data)][e.ptr := Item(mem[e.ptr].node.(valuestring := p))], e.(value := p))
  {
    assert FootAll([]) == {};
  }

  /** The copy has its name: one block more. */
  lemma NameCopied(was: Mem, mem: Mem, e: Tree, p: Ptr, data: bytes)
    requires Alone(was, mem, e) && e.kids == [] && e.name == NULL && p != NULL && p !in mem && 0 in data
    requires ItemAt(mem, e.ptr) && !mem[e.ptr].node.isReference && !mem[e.ptr].node.stringIsConst
    ensures Alone(was, mem[p := Text(data)][e.ptr := Item(mem[e.ptr].node.(name := p))], e.(name := p))
  {
    OwnedExists(mem, e);
    assert FootAll([]) == {};
  }

  /** The copy borrows its name: no block more. */
  lemma NameBorrowed(was: Mem, mem: Mem, e: Tree, p: Ptr)
    requires Alone(was, mem, e) && e.kids == []
    requires ItemAt(mem, e.ptr) && !mem[e.ptr].node.isReference && mem[e.ptr].node.stringIsConst
    ensures Alone(was, mem[e.ptr := Item(mem[e.ptr].node.(name := p))], e)
  {
    OwnedExists(mem, e);
    assert FootAll([]) == {};
  }

  /** `goto fail`: the copy is deleted. */
  method Abandon(heap: Heap, newitem: Ptr, ghost was: Mem, ghost copy: Tree)
    requires Alone(was, heap.mem, copy) && newitem == copy.ptr
    modifies heap`mem
    ensures heap.mem == was
  {
    hide Alone, FootAll, Deletable;
    AloneDiscarded(was, heap.mem, copy);
    heap.Delete(newitem, [copy]);
  }

  lemma SameText(mem: Mem, mem': Mem, p: Ptr)
    requires p != NULL ==> p in mem && p in mem' && mem'[p] == mem[p]
    ensures StrAt(mem', p) == StrAt(mem, p)
  {
    hide UpToNul;
  }

  /** A string of the original is still there. */
  lemma TextStays(was: Mem, mem: Mem, p: Ptr)
    requires Extends(was, mem) && TextAt(was, p)
    ensures TextAt(mem, p) && StrAt(mem, p) == StrAt(was, p)
  {
    hide UpToNul;
  }

  lemma SourceItem(was: Mem, mem: Mem, e: Tree, item: Ptr)
    requires Alone(was, mem, e) && ItemReadable(was, item)
    ensures ItemAt(mem, item) && mem[item] == was[item] && item != e.ptr && ItemAt(mem, e.ptr)
    ensures var n := was[item].node;
            && TextAt(mem, n.valuestring) && StrAt(mem, n.valuestring) == StrAt(was, n.valuestring)
            && TextAt(mem, n.name) && StrAt(mem, n.name) == StrAt(was, n.name)
  {
    hide Alone, StrAt;
    AloneFacts(was, mem, e);
    TextStays(was, mem, was[item].node.valuestring);
    TextStays(was, mem, was[item].node.name);
  }

  method CopyValue(heap: Heap, newitem: Ptr, item: Ptr, ghost was: Mem, ghost e: Tree)
    returns (ok: bool, ghost copy: Tree)
    requires Alone(was, heap.mem, e) && e == Bare(newitem, NULL) && ItemReadable(was, item)
    requires ItemAt(heap.mem, newitem) && heap.mem[newitem].node.valuestring == NULL
    requires !heap.mem[newitem].node.isReference
    modifies heap
    ensures !ok ==> heap.mem == was && heap.starved
    ensures ok ==>
              && heap.starved == old(heap.starved)
              && copy.ptr == newitem && copy.kids == [] && copy.name == NULL && Alone(was, heap.mem, copy)
              && ItemAt(heap.mem, newitem)
              && var n := heap.mem[newitem].node;
              && n == old(heap.mem[newitem].node).(valuestring := n.valuestring)
              && (n.valuestring != NULL ==> n.valuestring in heap.mem && n.valuestring != newitem)
              && StrAt(heap.mem, n.valuestring) == StrAt(was, was[item].node.valuestring)
  {
    hide Alone, StrAt;
    copy := e;
    ok := true;
    SourceItem(was, heap.mem, e, item);
    var valuestring := heap.mem[item].node.valuestring;
    if valuestring != NULL {
      ghost var mem1 := heap.mem;
      var p := Strdup(heap, valuestring);
      if p == NULL {
        Abandon(heap, newitem, was, e);
        return false, e;
      }
      ValueCopied(was, mem1, e, p, heap.mem[p].data);
      ghost var mem2 := heap.mem;
      heap.Update(newitem, heap.mem[newitem].node.(valuestring := p));
      SameText(mem2, heap.mem, p);
      copy := e.(value := p);
    }
  }

  method CopyName(heap: Heap, newitem: Ptr, item: Ptr, ghost was: Mem, ghost e: Tree)
    returns (ok: bool, ghost copy: Tree)
    requires Alone(was, heap.mem, e) && e.ptr == newitem && e.kids == [] && e.name == NULL && ItemReadable(was, item)
    requires ItemAt(heap.mem, newitem)
    requires var n := heap.mem[newitem].node;
             && n.name == NULL && !n.isReference && n.stringIsConst == was[item].node.stringIsConst
             && (n.valuestring != NULL ==> n.valuestring in heap.mem && n.valuestring != newitem)
    modifies heap
    ensures !ok ==> heap.mem == was && heap.starved
    ensures ok ==>
              && heap.starved == old(heap.starved)
              && copy.ptr == newitem && copy.kids == [] && Alone(was, heap.mem, copy)
              && ItemAt(heap.mem, newitem)
              && var n := heap.mem[newitem].node;
              && n == old(heap.mem[newitem].node).(name := n.name)
              && (n.stringIsConst ==> n.name == was[item].node.name)
              && StrAt(heap.mem, n.name) == StrAt(was, was[item].node.name)
              && StrAt(heap.mem, n.valuestring) == old(StrAt(heap.mem, heap.mem[newitem].node.valuestring))
  {
    hide Alone, StrAt;
    copy := e;
    ok := true;
    SourceItem(was, heap.mem, e, item);
    var node := heap.mem[item].node;
    ghost var mem1 := heap.mem;
    if node.name != NULL {
      var p := node.name;
      if node.stringIsConst {
        NameBorrowed(was, mem1, e, p);
      } else {
        p := Strdup(heap, p);
        if p == NULL {
          Abandon(heap, newitem, was, e);
          return false, e;
        }
        NameCopied(was, mem1, e, p, heap.mem[p].data);
        copy := e.(name := p);
      }
      ghost var mem2 := heap.mem;
      heap.Update(newitem, heap.mem[newitem].node.(name := p));
      SourceText(was, mem1, e, node.name);
      SameText(mem2, heap.mem, p);
      SameText(mem1, heap.mem, mem1[newitem].node.valuestring);
    }
  }

  /** A string of the original is no item of the copy. */
  lemma SourceText(was: Mem, mem: Mem, e: Tree, p: Ptr)
    requires Alone(was, mem, e) && p != NULL && TextAt(was, p)
    ensures p != e.ptr && p in mem
  {
    hide Alone;
    AloneFacts(was, mem, e);
  }

  /** A new item with copies of the fields; if one of them fails nothing is left behind. */
  method CopyItem(heap: Heap, item: Ptr) returns (newitem: Ptr, ghost copy: Tree)
    requires NULL !in heap.mem && ItemReadable(heap.mem, item)
    modifies heap
    ensures newitem == NULL ==> heap.mem == old(heap.mem) && heap.starved
    ensures newitem != NULL ==>
              && heap.starved == old(heap.starved)
              && copy.ptr == newitem && copy.kids == [] && Alone(old(heap.mem), heap.mem, copy)
              && SameFields(old(heap.mem), item, heap.mem, newitem)
  {
    hide Alone, StrAt;
    ghost var was := heap.mem;
    var node := heap.mem[item].node;
    newitem := heap.NewItem();
    copy := Bare(newitem, NULL);
    if newitem == NULL {
      return;
    }
    var n := BLANK.(kind := node.kind, valueint := node.valueint, number := node.number,
                    stringIsConst := node.stringIsConst);
    BlankAlone(was, newitem, n);
    heap.Update(newitem, n);
    assert heap.mem == was[newitem := Item(n)];
    var ok;
    ok, copy := CopyValue(heap, newitem, item, was, copy);
    if ok {
      ok, copy := CopyName(heap, newitem, item, was, copy);
    }
    if !ok {
      newitem := NULL;
    }
  }

  // ----- what stays as it was -----

  /** Own strings and `was` left alone, the fields copied are still right; links and children may have changed. */
  lemma FieldsKept(was: Mem, item: Ptr, mem: Mem, t: Tree, mem': Mem)
    requires SameFields(was, item, mem, t.ptr) && ItemReadable(was, item) && Owned(mem, t)
    requires Extends(was, mem) && Extends(was, mem') && ItemAt(mem, t.ptr) && ItemAt(mem', t.ptr)
    requires var n := mem'[t.ptr].node; n == mem[t.ptr].node.(next := n.next, prev := n.prev, child := n.child)
    requires forall p :: p in Opt(t.value) + Opt(t.name) ==> p in mem && p in mem' && mem'[p] == mem[p]
    ensures SameFields(was, item, mem', t.ptr)
  {
    hide StrAt, FootAll;
    var n := mem[t.ptr].node;
    SameText(mem, mem', n.valuestring);
    SameText(mem, mem', n.name);
  }

  lemma OwnTexts(mem: Mem, mem': Mem, t: Tree, s: set<Ptr>)
    requires Owned(mem, t) && Agree(mem, mem', s) && Opt(t.value) + Opt(t.name) <= s
    ensures forall p :: p in Opt(t.value) + Opt(t.name) ==> p in mem && p in mem' && mem'[p] == mem[p]
  {
    hide FootAll;
  }

  lemma {:induction false} TwinStays(was: Mem, t: Tree, mem: Mem, t': Tree, mem': Mem)
    requires Twin(was, t, mem, t') && Readable(was, t) && Owned(mem, t')
    requires Extends(was, mem) && Extends(was, mem') && Agree(mem, mem', Foot(t'))
    ensures Twin(was, t, mem', t')
    decreases t
  {
    hide SameFields, FootAll, ItemReadable, Extends;
    OwnTexts(mem, mem', t', Foot(t'));
    FieldsKept(was, t.ptr, mem, t', mem');
    forall i | 0 <= i < |t.kids| ensures Twin(was, t.kids[i], mem', t'.kids[i]) {
      FootInAll(t'.kids, i);
      TwinStays(was, t.kids[i], mem, t'.kids[i], mem');
    }
  }

  /** A twin of what a larger heap holds is a twin of what the smaller one held. */
  lemma {:induction false} TwinOfOld(was: Mem, t: Tree, mem: Mem, mem': Mem, t': Tree)
    requires Readable(was, t) && Extends(was, mem) && Twin(mem, t, mem', t')
    ensures Twin(was, t, mem', t')
    decreases t
  {
    hide StrAt;
    TextStays(was, mem, was[t.ptr].node.valuestring);
    TextStays(was, mem, was[t.ptr].node.name);
    forall i | 0 <= i < |t.kids| ensures Twin(was, t.kids[i], mem', t'.kids[i]) {
      TwinOfOld(was, t.kids[i], mem, mem', t'.kids[i]);
    }
  }

  // ----- the children -----

  lemma KidsOf(mem: Mem, t: Tree)
    requires Owned(mem, t) && ItemAt(mem, t.ptr) && !mem[t.ptr].node.isReference
    ensures Kids(mem, t.ptr, Ptrs(t.kids))
  {
    hide FootAll;
    forall i | 0 <= i < |t.kids| ensures t.kids[i].ptr != t.ptr {
      FootInAll(t.kids, i);
    }
  }

  lemma KidPtrs(e: Tree)
    ensures forall p :: p in Ptrs(e.kids) ==> p in Foot(e)
  {
    forall p | p in Ptrs(e.kids) ensures p in Foot(e) {
      var i :| 0 <= i < |e.kids| && e.kids[i].ptr == p;
      FootInAll(e.kids, i);
    }
  }

  /** The state before the copy `u` of the next child is attached to the copy `e` of the item. */
  lemma ReadyToAttach(was: Mem, mem: Mem, mem1: Mem, e: Tree, u: Tree)
    requires Alone(was, mem, e) && Alone(mem, mem1, u) && ItemAt(mem, e.ptr) && !mem[e.ptr].node.isReference
    ensures Owned(mem1, e) && Owned(mem1, u) && Foot(e) !! Foot(u) && ItemAt(mem1, e.ptr) && mem1[e.ptr] == mem[e.ptr]
    ensures Single(mem1, e.ptr) && Single(mem1, u.ptr) && u.ptr != NULL
    ensures Kids(mem1, e.ptr, Ptrs(e.kids)) && u.ptr != e.ptr && u.ptr !in Ptrs(e.kids)
    ensures Last(e.kids).ptr == PtrAt(Ptrs(e.kids), |e.kids| - 1)
    ensures Last(e.kids).ptr == NULL <==> e.kids == []
    ensures Last(e.kids).ptr == NULL || (ItemAt(mem1, Last(e.kids).ptr) && Last(e.kids).ptr != u.ptr)
  {
    hide Owned, Foot, Kids;
    OwnedExists(mem, e);
    OwnsRoot(u);
    OwnsRoot(e);
    OwnedFrame(mem, mem1, e);
    KidsOf(mem1, e);
    KidPtrs(e);
    if e.kids != [] {
      KidAt(mem1, e.ptr, Ptrs(e.kids), |e.kids| - 1);
      assert Last(e.kids).ptr in Ptrs(e.kids);
    }
  }

  /** Attaching the copy of a child keeps the copy a tree of its own. */
  lemma Attached(was: Mem, mem: Mem, mem1: Mem, e: Tree, u: Tree)
    requires Alone(was, mem, e) && Alone(mem, mem1, u) && ItemAt(mem, e.ptr) && !mem[e.ptr].node.isReference
    ensures ItemAt(mem1, e.ptr) && ItemAt(mem1, u.ptr) && (Last(e.kids).ptr == NULL || ItemAt(mem1, Last(e.kids).ptr))
    ensures var mem2 := Appended(mem1, e.ptr, Last(e.kids).ptr, u.ptr);
            && Alone(was, mem2, e.(kids := e.kids + [u]))
            && Relinked(mem1, mem2, e.ptr, Ptrs(e.kids) + [u.ptr])
  {
    hide Alone, Owned, Foot, Kids, Relinked, Appended, Inserted;
    AloneFacts(mem, mem1, u);
    ReadyToAttach(was, mem, mem1, e, u);
    SingleAppendable(mem1, e.ptr, Ptrs(e.kids), u.ptr);
    AppendedKids(mem1, e.ptr, Ptrs(e.kids), u.ptr, [u.ptr]);
    var mem2 := Appended(mem1, e.ptr, Last(e.kids).ptr, u.ptr);
    InsertedEnd(Ptrs(e.kids), u.ptr);
    InsertedEnd(e.kids, u);
    InsertKeepsOwnership(mem1, mem2, e, |e.kids|, u);
    AttachedAlone(was, mem, mem1, mem2, e, u);
  }

  lemma InsertedEnd<T>(s: seq<T>, x: T)
    ensures Inserted(s, |s|, x) == s + [x]
  {
  }

  lemma AttachedAlone(was: Mem, mem: Mem, mem1: Mem, mem2: Mem, e: Tree, u: Tree)
    requires Alone(was, mem, e) && Alone(mem, mem1, u) && Single(mem1, e.ptr)
    requires Relinked(mem1, mem2, e.ptr, Ptrs(e.kids) + [u.ptr])
    requires Owned(mem2, e.(kids := e.kids + [u])) && Foot(e.(kids := e.kids + [u])) == Foot(e) + Foot(u)
    ensures Alone(was, mem2, e.(kids := e.kids + [u]))
  {
    hide Owned, Foot;
    OwnedExists(mem, e);
    OwnsRoot(e);
    OwnsRoot(u);
    KidPtrs(e);
    forall p | p in was ensures p in mem2 && mem2[p] == was[p] {
      assert p !in Ptrs(e.kids);
    }
  }

  /** What attaching changes in a tree that is no part of the parent itself: links only. */
  lemma AttachingAgrees(mem1: Mem, mem2: Mem, parent: Ptr, ps: seq<Ptr>, s: set<Ptr>)
    requires Relinked(mem1, mem2, parent, ps) && parent !in s && s <= mem1.Keys
    ensures Agree(mem1, mem2, s)
  {
  }

  /** The copy of an earlier child survives the next one, its making and its attaching. */
  lemma EarlierTwin(was: Mem, t: Tree, mem: Mem, mem1: Mem, mem2: Mem, e: Tree, u: Tree, kid: Tree)
    requires Alone(was, mem, e) && Alone(mem, mem1, u) && kid in e.kids
    requires Relinked(mem1, mem2, e.ptr, Ptrs(e.kids) + [u.ptr]) && Extends(was, mem2)
    requires Readable(was, t) && Twin(was, t, mem, kid)
    ensures Twin(was, t, mem2, kid)
  {
    hide Owned, Foot, FootAll, Twin, Readable, Relinked;
    var i :| 0 <= i < |e.kids| && e.kids[i] == kid;
    OwnedParts(mem, e);
    FootInAll(e.kids, i);
    OwnedExists(mem, e);
    OwnedExists(mem, kid);
    RootOwned(e);
    assert Agree(mem, mem1, Foot(kid));
    AttachingAgrees(mem1, mem2, e.ptr, Ptrs(e.kids) + [u.ptr], Foot(kid));
    TwinStays(was, t, mem, kid, mem2);
  }

  lemma LatestTwin(was: Mem, t: Tree, mem: Mem, mem1: Mem, mem2: Mem, e: Tree, u: Tree)
    requires Alone(was, mem, e) && Alone(mem, mem1, u)
    requires Relinked(mem1, mem2, e.ptr, Ptrs(e.kids) + [u.ptr]) && Extends(was, mem2)
    requires Readable(was, t) && Twin(mem, t, mem1, u)
    ensures Twin(was, t, mem2, u)
  {
    hide Owned, Foot, FootAll, Twin, Readable, Relinked;
    TwinOfOld(was, t, mem, mem1, u);
    OwnedExists(mem, e);
    OwnedExists(mem1, u);
    OwnsRoot(e);
    AttachingAgrees(mem1, mem2, e.ptr, Ptrs(e.kids) + [u.ptr], Foot(u));
    TwinStays(was, t, mem1, u, mem2);
  }

  /** The fields copied survive the attaching of a child. */
  lemma FieldsAfter(was: Mem, item: Ptr, mem: Mem, mem1: Mem, mem2: Mem, e: Tree, u: Tree)
    requires SameFields(was, item, mem, e.ptr) && ItemReadable(was, item) && Alone(was, mem, e) && Alone(mem, mem1, u)
    requires Relinked(mem1, mem2, e.ptr, Ptrs(e.kids) + [u.ptr]) && Extends(was, mem2)
    ensures SameFields(was, item, mem2, e.ptr)
  {
    hide Owned, FootAll, SameFields, ItemReadable;
    OwnedExists(mem, e);
    OwnedParts(mem, e);
    OwnsRoot(u);
    OwnBlocks(mem, e);
    assert ItemAt(mem, e.ptr) && ItemAt(mem2, e.ptr);
    forall p | p in Opt(e.value) + Opt(e.name) ensures p in mem && p in mem2 && mem2[p] == mem[p] {
      assert p in Own(e) && p != e.ptr && p !in Ptrs(e.kids);
    }
    FieldsKept(was, item, mem, e, mem2);
  }

  /** How far the loop over the children has come: the first `k` are copied. */
  ghost predicate Copying(was: Mem, mem: Mem, t: Tree, e: Tree, k: nat) {
    && k <= |t.kids| && |e.kids| == k && Alone(was, mem, e) && SameFields(was, t.ptr, mem, e.ptr)
    && forall i :: 0 <= i < k ==> Twin(was, t.kids[i], mem, e.kids[i])
  }

  lemma CopyingFacts(was: Mem, mem: Mem, t: Tree, e: Tree, k: nat)
    requires Copying(was, mem, t, e, k)
    ensures Alone(was, mem, e) && |e.kids| == k <= |t.kids| && ItemAt(mem, e.ptr) && !mem[e.ptr].node.isReference
  {
    hide Alone;
  }

  lemma CopyingStep(was: Mem, mem: Mem, mem1: Mem, t: Tree, e: Tree, k: nat, u: Tree)
    requires Copying(was, mem, t, e, k) && k < |t.kids| && Readable(was, t)
    requires Alone(mem, mem1, u) && Twin(mem, t.kids[k], mem1, u)
    ensures ItemAt(mem1, e.ptr) && ItemAt(mem1, u.ptr) && (Last(e.kids).ptr == NULL || ItemAt(mem1, Last(e.kids).ptr))
    ensures Copying(was, Appended(mem1, e.ptr, Last(e.kids).ptr, u.ptr), t, e.(kids := e.kids + [u]), k + 1)
  {
    hide Alone, SameFields, Twin, Relinked, Appended, ItemReadable;
    CopyingFacts(was, mem, t, e, k);
    Attached(was, mem, mem1, e, u);
    var mem2, e' := Appended(mem1, e.ptr, Last(e.kids).ptr, u.ptr), e.(kids := e.kids + [u]);
    AloneFacts(was, mem2, e');
    FieldsAfter(was, t.ptr, mem, mem1, mem2, e, u);
    forall i | 0 <= i < k ensures Twin(was, t.kids[i], mem2, e'.kids[i]) {
      EarlierTwin(was, t.kids[i], mem, mem1, mem2, e, u, e.kids[i]);
    }
    LatestTwin(was, t.kids[k], mem, mem1, mem2, e, u);
  }

  /** The next child of the original, found in the heap as it is now. */
  lemma NextChild(was: Mem, mem: Mem, t: Tree, e: Tree, k: nat)
    requires Readable(was, t) && Alone(was, mem, e) && k < |t.kids|
    ensures t.kids[k].ptr == PtrAt(Ptrs(t.kids), k) != NULL && ItemAt(mem, t.kids[k].ptr)
    ensures mem[t.kids[k].ptr].node.next == PtrAt(Ptrs(t.kids), k + 1) && Readable(mem, t.kids[k])
  {
    hide Alone;
    AloneFacts(was, mem, e);
    assert ItemAt(was, Ptrs(t.kids)[k]);
    ReadableStays(was, mem, t.kids[k]);
  }

  lemma FirstChild(was: Mem, mem: Mem, t: Tree, e: Tree)
    requires Readable(was, t) && Alone(was, mem, e)
    ensures ItemAt(mem, t.ptr) && mem[t.ptr].node.child == PtrAt(Ptrs(t.kids), 0)
  {
    hide Alone;
    AloneFacts(was, mem, e);
  }

  lemma LastChild(was: Mem, t: Tree, k: nat)
    requires Readable(was, t) && k <= |t.kids| && PtrAt(Ptrs(t.kids), k) == NULL
    ensures k == |t.kids|
  {
  }

  /** The loop of `cJSON_Duplicate` over the children; when one fails the copy is deleted. */
  method CopyKids(heap: Heap, newitem: Ptr, item: Ptr, ghost was: Mem, ghost e: Tree, ghost t: Tree)
    returns (ok: bool, ghost copy: Tree)
    requires Readable(was, t) && t.ptr == item && e.ptr == newitem && Copying(was, heap.mem, t, e, 0)
    modifies heap
    ensures !ok ==> heap.mem == was && heap.starved
    ensures ok ==>
              && heap.starved == old(heap.starved) && copy.ptr == newitem
              && Alone(was, heap.mem, copy) && Twin(was, t, heap.mem, copy)
    decreases t, 0
  {
    hide Alone, Readable, Copying, Appended, Twin, SameFields;
    copy := e;
    CopyingFacts(was, heap.mem, t, e, 0);
    FirstChild(was, heap.mem, t, e);
    var child := heap.mem[item].node.child;
    var next := NULL;
    ghost var k := 0;
    while child != NULL
      invariant k <= |t.kids| && child == PtrAt(Ptrs(t.kids), k) && Copying(was, heap.mem, t, copy, k)
      invariant copy.ptr == newitem && next == Last(copy.kids).ptr && heap.starved == old(heap.starved)
      decreases |t.kids| - k
    {
      ghost var kid, mem0 := t.kids[k], heap.mem;
      CopyingFacts(was, mem0, t, copy, k);
      AloneFacts(was, mem0, copy);
      NextChild(was, mem0, t, copy, k);
      var newchild;
      ghost var u;
      newchild, u := Duplicate(heap, child, true, kid);
      if newchild == NULL {
        Abandon(heap, newitem, was, copy);
        return false, copy;
      }
      CopyingStep(was, mem0, heap.mem, t, copy, k, u);
      ReadyToAttach(was, mem0, heap.mem, copy, u);
      Attach(heap, newitem, next, newchild);
      next := newchild;
      copy := copy.(kids := copy.kids + [u]);
      k := k + 1;
      CopyingFacts(was, heap.mem, t, copy, k);
      NextChild(was, heap.mem, t, copy, k - 1);
      child := heap.mem[child].node.next;
    }
    LastChild(was, t, k);
    CopyingEnd(was, heap.mem, t, copy, k);
    ok := true;
  }

  lemma CopyingEnd(was: Mem, mem: Mem, t: Tree, e: Tree, k: nat)
    requires Copying(was, mem, t, e, k) && k == |t.kids|
    ensures Alone(was, mem, e) && Twin(was, t, mem, e)
  {
    hide Alone, SameFields;
  }

  /** Crosswiring `prev` and `next`, or setting `child` for the first. */
  method Attach(heap: Heap, newitem: Ptr, next: Ptr, newchild: Ptr)
    requires ItemAt(heap.mem, newitem) && ItemAt(heap.mem, newchild) && (next == NULL || ItemAt(heap.mem, next))
    requires next != newchild
    modifies heap`mem
    ensures heap.mem == old(Appended(heap.mem, newitem, next, newchild))
  {
    if next != NULL {
      heap.Update(next, heap.mem[next].node.(next := newchild));
      heap.Update(newchild, heap.mem[newchild].node.(prev := next));
    } else {
      heap.Update(newitem, heap.mem[newitem].node.(child := newchild));
    }
  }

  /**
   * `cJSON_Duplicate` of anything that can be read to the end; who owns it does not matter. The copy owns new
   * blocks only, every old block stays as it was, and the copy is the twin of the original, item by item: a
   * reference has become the owner of a copy of what it refers to. Without `recurse` only the item itself is
   * read, and the children are missing. If no copy comes out the heap is as before.
   */
  method Duplicate(heap: Heap, item: Ptr, recurse: bool, ghost t: Tree) returns (newitem: Ptr, ghost copy: Tree)
    requires NULL !in heap.mem
    requires item != NULL ==> t.ptr == item && if recurse then Readable(heap.mem, t) else ItemReadable(heap.mem, item)
    modifies heap
    ensures newitem == NULL ==> heap.mem == old(heap.mem) && (item == NULL || heap.starved)
    ensures newitem != NULL ==>
              && item != NULL && heap.starved == old(heap.starved)
              && copy.ptr == newitem && Alone(old(heap.mem), heap.mem, copy)
              && (if recurse then Twin(old(heap.mem), t, heap.mem, copy)
                  else SameFields(old(heap.mem), item, heap.mem, newitem) && copy.kids == [])
              && NameOf(heap.mem, copy) == old(NameOf(heap.mem, t))
              && ValueOf(heap.mem, copy) ==
                   (if recurse then old(ValueOf(heap.mem, t)) else Shallow(old(ValueOf(heap.mem, t))))
    decreases t, 1
  {
    hide Alone, ItemReadable, NameOf, ValueOf, SameFields, Copying, Twin;
    copy := t;
    if item == NULL {
      return NULL, t;
    }
    ghost var was := heap.mem;
    newitem, copy := CopyItem(heap, item);
    if newitem == NULL {
      return;
    }
    if !recurse {
      ShallowValue(was, t, heap.mem, copy);
      return;
    }
    CopyingStart(was, heap.mem, t, copy);
    var ok;
    ok, copy := CopyKids(heap, newitem, item, was, copy, t);
    if ok {
      TwinValue(was, t, heap.mem, copy);
    } else {
      newitem := NULL;
    }
  }

  lemma CopyingStart(was: Mem, mem: Mem, t: Tree, e: Tree)
    requires Alone(was, mem, e) && SameFields(was, t.ptr, mem, e.ptr) && e.kids == []
    ensures Copying(was, mem, t, e, 0)
  {
    hide Alone, SameFields;
  }

  // ----- what a copy is good for -----

  /** A copy of a tree with neither references nor borrowed names is such a tree again. */
  lemma {:induction false} TwinPlain(was: Mem, t: Tree, mem: Mem, t': Tree)
    requires Twin(was, t, mem, t') && Plain(was, t)
    ensures Plain(mem, t')
    decreases t
  {
    hide StrAt;
    forall i | 0 <= i < |t'.kids| ensures Plain(mem, t'.kids[i]) {
      TwinPlain(was, t.kids[i], mem, t'.kids[i]);
    }
  }

  lemma CopyOfPlain(was: Mem, t: Tree, mem: Mem, t': Tree)
    requires Alone(was, mem, t') && Twin(was, t, mem, t') && Plain(was, t)
    ensures Root(was, mem, t')
  {
    hide Owned, Plain, Foot, FootAll, Twin;
    TwinPlain(was, t, mem, t');
    FootOne(t');
  }

  /** A copy is found equal to its original exactly if the original is an item that is found equal to anything. */
  lemma CopyComparesEqual(was: Mem, t: Tree, mem: Mem, t': Tree, cs: bool)
    requires Twin(was, t, mem, t')
    ensures C.Equal(ValueOf(was, t), ValueOf(mem, t'), cs)
            <==> C.Settled(ValueOf(was, t)) && C.Uniform(ValueOf(was, t), cs)
  {
    hide Twin, ValueOf, C.Equal, C.Settled, C.Uniform;
    TwinValue(was, t, mem, t');
    C.EqualToCopy(ValueOf(was, t), cs);
  }

  /** None of the names borrowed below `t` is among the blocks of `gone`. */
  ghost predicate Spares(mem: Mem, t: Tree, gone: set<Ptr>)
    decreases t
  {
    && ItemAt(mem, t.ptr) && (mem[t.ptr].node.stringIsConst ==> mem[t.ptr].node.name !in gone)
    && forall i :: 0 <= i < |t.kids| ==> Spares(mem, t.kids[i], gone)
  }

  lemma {:induction false} TwinSpares(was: Mem, t: Tree, mem: Mem, t': Tree, gone: set<Ptr>)
    requires Twin(was, t, mem, t') && Spares(was, t, gone)
    ensures Spares(mem, t', gone)
    decreases t
  {
    hide StrAt;
    forall i | 0 <= i < |t'.kids| ensures Spares(mem, t'.kids[i], gone) {
      TwinSpares(was, t.kids[i], mem, t'.kids[i], gone);
    }
  }

  /**
   * A copy lives on when any other blocks are freed, those of the original among them, as long as the names
   * that the original borrows are not: it still owns its blocks and has the name and value the original had.
   */
  lemma CopySurvives(was: Mem, t: Tree, mem: Mem, t': Tree, gone: set<Ptr>)
    requires Alone(was, mem, t') && Twin(was, t, mem, t') && Foot(t') !! gone && Spares(was, t, gone)
    ensures Owned(mem - gone, t') && ReferenceFree(mem - gone, t')
    ensures NameOf(mem - gone, t') == NameOf(was, t) && ValueOf(mem - gone, t') == ValueOf(was, t)
  {
    hide Twin, Spares, ReferenceFree, Owned, Foot, NameOf, ValueOf;
    TwinSpares(was, t, mem, t', gone);
    TwinReferenceFree(was, t, mem, t');
    TwinValue(was, t, mem, t');
    TreeSurvives(mem, t', gone);
  }

  lemma {:induction false} TreeSurvives(mem: Mem, t: Tree, gone: set<Ptr>)
    requires Owned(mem, t) && ReferenceFree(mem, t) && Foot(t) !! gone && Spares(mem, t, gone)
    ensures Owned(mem - gone, t) && ReferenceFree(mem - gone, t)
    ensures NameOf(mem - gone, t) == NameOf(mem, t) && ValueOf(mem - gone, t) == ValueOf(mem, t)
    decreases t, 1
  {
    hide UpToNul, Foot, FootAll, ChainOf, Owned;
    OwnedWithout(mem, gone, t);
    OwnedExists(mem, t);
    OwnsRoot(t);
    SurvivingTexts(mem, t, gone);
    OwnedParts(mem, t);
    ChainSurvives(mem, t.kids, gone);
  }

  lemma SurvivingTexts(mem: Mem, t: Tree, gone: set<Ptr>)
    requires Owned(mem, t) && ReferenceFree(mem, t) && Foot(t) !! gone && Spares(mem, t, gone)
    ensures ItemAt(mem, t.ptr)
    ensures StrAt(mem - gone, mem[t.ptr].node.valuestring) == StrAt(mem, mem[t.ptr].node.valuestring)
    ensures StrAt(mem - gone, mem[t.ptr].node.name) == StrAt(mem, mem[t.ptr].node.name)
  {
    hide UpToNul, FootAll;
  }

  lemma {:induction false} ChainSurvives(mem: Mem, ts: seq<Tree>, gone: set<Ptr>)
    requires FootAll(ts) !! gone
    requires forall i :: 0 <= i < |ts| ==> Owned(mem, ts[i]) && ReferenceFree(mem, ts[i]) && Spares(mem, ts[i], gone)
    ensures ChainOf(mem - gone, ts) == ChainOf(mem, ts)
    ensures forall i :: 0 <= i < |ts| ==> ReferenceFree(mem - gone, ts[i])
    decreases ts, 0
  {
    hide Owned, ReferenceFree, Spares, Foot, ValueOf, NameOf;
    if ts != [] {
      TreeSurvives(mem, ts[0], gone);
      ChainSurvives(mem, ts[1..], gone);
    }
  }
}
