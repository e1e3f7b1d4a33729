/** `cJSON_Compare` as it runs, over nodes: two items may share nodes, and one and the same node is equal to itself. */
module CompareNodes {
  import opened Doubles
  import opened Strings
  import opened Json
  import opened CHeap
  import opened ItemValues
  import opened Compare

  ghost function Weight(t: Tree): (w: nat)
    ensures w >= 1
    decreases t, 1
  {
    1 + WeightAll(t.kids)
  }

  ghost function WeightAll(ts: seq<Tree>): nat
    decreases ts, 0
  {
    if ts == [] then 0 else Weight(ts[0]) + WeightAll(ts[1..])
  }

  lemma {:induction false} WeightKid(ts: seq<Tree>, k: nat)
    requires k < |ts|
    ensures Weight(ts[k]) <= WeightAll(ts)
    decreases k
  {
    hide Weight;
    if k > 0 { WeightKid(ts[1..], k - 1); }
  }

  /** The first item with the name, or the number of items. */
  ghost function FindKid(mem: Mem, ts: seq<Tree>, name: CStr, cs: bool): (k: nat)
    ensures k <= |ts|
    ensures k < |ts| ==> Weight(ts[k]) <= WeightAll(ts)
    decreases |ts|
  {
    if ts == [] || SameName(name, NameOf(mem, ts[0]), cs) then 0 else 1 + FindKid(mem, ts[1..], name, cs)
  }

  predicate SameString(mem: Mem, p: Ptr, q: Ptr) {
    StrAt(mem, p).Chars? && StrAt(mem, p) == StrAt(mem, q)
  }

  // ----- what is computed -----

  ghost predicate NodeEqual(mem: Mem, s: Tree, t: Tree, cs: bool)
    decreases Weight(s) + Weight(t), 1
  {
    && ItemAt(mem, s.ptr) && ItemAt(mem, t.ptr)
    && var n, m := mem[s.ptr].node, mem[t.ptr].node;
    && n.kind == m.kind && n.kind != KInvalid
    && (s.ptr == t.ptr ||
        match n.kind
        case KNumber => DoubleEq(n.number, m.number)
        case KString => SameString(mem, n.valuestring, m.valuestring)
        case KRaw => SameString(mem, n.valuestring, m.valuestring)
        case KArray => NodesEqual(mem, s.kids, t.kids, cs)
        case KObject => NodesFound(mem, s.kids, t.kids, cs) && NodesFound(mem, t.kids, s.kids, cs)
        case _ => true)
  }

  ghost predicate NodesEqual(mem: Mem, x: seq<Tree>, y: seq<Tree>, cs: bool)
    decreases WeightAll(x) + WeightAll(y), 2, |x|
  {
    if x != [] && y != [] then NodeEqual(mem, x[0], y[0], cs) && NodesEqual(mem, x[1..], y[1..], cs) else x == y == []
  }

  /** Every item of `x` is equal to the first of `y` with its name. */
  ghost predicate NodesFound(mem: Mem, x: seq<Tree>, y: seq<Tree>, cs: bool)
    decreases WeightAll(x) + WeightAll(y), 2, |x|
  {
    x == [] ||
    var k := FindKid(mem, y, NameOf(mem, x[0]), cs);
    k < |y| && NodeEqual(mem, x[0], y[k], cs) && NodesFound(mem, x[1..], y, cs)
  }

  // ----- what sharing adds -----

  /**
   * Wherever the comparison comes to one and the same node on both sides, the value of that node is equal to a
   * copy of itself.
   */
  ghost predicate Sound(mem: Mem, s: Tree, t: Tree, cs: bool)
    decreases Weight(s) + Weight(t), 1
  {
    ItemAt(mem, s.ptr) && ItemAt(mem, t.ptr) && mem[s.ptr].node.kind == mem[t.ptr].node.kind ==>
      if s.ptr == t.ptr then Settled(ValueOf(mem, s)) && Uniform(ValueOf(mem, s), cs)
      else match mem[s.ptr].node.kind
           case KArray => SoundItems(mem, s.kids, t.kids, cs)
           case KObject => SoundMembers(mem, s.kids, t.kids, cs) && SoundMembers(mem, t.kids, s.kids, cs)
           case _ => true
  }

  ghost predicate SoundItems(mem: Mem, x: seq<Tree>, y: seq<Tree>, cs: bool)
    decreases WeightAll(x) + WeightAll(y), 2, |x|
  {
    x != [] && y != [] ==> Sound(mem, x[0], y[0], cs) && SoundItems(mem, x[1..], y[1..], cs)
  }

  ghost predicate SoundMembers(mem: Mem, x: seq<Tree>, y: seq<Tree>, cs: bool)
    decreases WeightAll(x) + WeightAll(y), 2, |x|
  {
    x == [] ||
    var k := FindKid(mem, y, NameOf(mem, x[0]), cs);
    (k < |y| ==> Sound(mem, x[0], y[k], cs)) && SoundMembers(mem, x[1..], y, cs)
  }

  lemma {:induction false} FindKidValue(mem: Mem, ts: seq<Tree>, name: CStr, cs: bool)
    ensures var k := FindKid(mem, ts, name, cs);
            Find(ChainOf(mem, ts), name, cs) == if k < |ts| then Hit(ValueOf(mem, ts[k])) else NoItem
    decreases |ts|
  {
    hide ValueOf, NameOf, SameName, Weight, WeightAll;
    if ts != [] && !SameName(name, NameOf(mem, ts[0]), cs) {
      FindKidValue(mem, ts[1..], name, cs);
    }
  }

  /** Walks that start at one node meet the same items. */
  lemma {:induction false} SameNode(mem: Mem, s: Tree, t: Tree)
    requires Readable(mem, s) && Readable(mem, t) && s.ptr == t.ptr
    ensures ValueOf(mem, s) == ValueOf(mem, t) && NameOf(mem, s) == NameOf(mem, t)
    decreases s, 1
  {
    hide ChainOf, StrAt, ValueOf, NameOf;
    ReadableParts(mem, s);
    ReadableParts(mem, t);
    hide Readable;
    SameWalk(mem, s.kids, t.kids);
    SameParts(mem, s, t);
  }

  lemma ReadableParts(mem: Mem, t: Tree)
    requires Readable(mem, t)
    ensures ItemAt(mem, t.ptr) && mem[t.ptr].node.child == Head(Ptrs(t.kids)) && NextLinked(mem, Ptrs(t.kids))
    ensures forall i :: 0 <= i < |t.kids| ==> Readable(mem, t.kids[i])
  {
  }

  lemma SameParts(mem: Mem, s: Tree, t: Tree)
    requires s.ptr == t.ptr && ChainOf(mem, s.kids) == ChainOf(mem, t.kids)
    ensures ValueOf(mem, s) == ValueOf(mem, t) && NameOf(mem, s) == NameOf(mem, t)
  {
    hide ChainOf, StrAt;
  }

  lemma {:induction false} SameWalk(mem: Mem, x: seq<Tree>, y: seq<Tree>)
    requires NextLinked(mem, Ptrs(x)) && NextLinked(mem, Ptrs(y)) && Head(Ptrs(x)) == Head(Ptrs(y))
    requires forall i :: 0 <= i < |x| ==> Readable(mem, x[i])
    requires forall i :: 0 <= i < |y| ==> Readable(mem, y[i])
    ensures ChainOf(mem, x) == ChainOf(mem, y)
    decreases x, 0
  {
    hide Readable, ValueOf, NameOf;
    if x != [] {
      assert ItemAt(mem, Ptrs(x)[0]);
      assert y != [];
      SameNode(mem, x[0], y[0]);
      WalkTail(mem, x);
      WalkTail(mem, y);
      SameWalk(mem, x[1..], y[1..]);
    }
  }

  lemma WalkTail(mem: Mem, ts: seq<Tree>)
    requires NextLinked(mem, Ptrs(ts)) && ts != []
    ensures ItemAt(mem, ts[0].ptr) && mem[ts[0].ptr].node.next == Head(Ptrs(ts[1..])) && NextLinked(mem, Ptrs(ts[1..]))
  {
    var ps := Ptrs(ts);
    assert ItemAt(mem, ps[0]) && Ptrs(ts[1..]) == ps[1..];
    assert mem[ps[0]].node.next == PtrAt(ps, 1);
    forall i | 0 <= i < |ps| - 1
      ensures ItemAt(mem, ps[1..][i]) && mem[ps[1..][i]].node.next == PtrAt(ps[1..], i + 1)
    {
      assert ItemAt(mem, ps[i + 1]) && mem[ps[i + 1]].node.next == PtrAt(ps, i + 2);
    }
  }

  /**
   * What `cJSON_Compare` answers for two nodes, against the equality of their values: the values are equal if and
   * only if it answers yes and does not owe that to a shared node which is different from its own copy.
   */
  lemma {:induction false} EqualExactly(mem: Mem, s: Tree, t: Tree, cs: bool)
    requires Readable(mem, s) && Readable(mem, t)
    ensures Equal(ValueOf(mem, s), ValueOf(mem, t), cs) <==> NodeEqual(mem, s, t, cs) && Sound(mem, s, t, cs)
    decreases Weight(s) + Weight(t), 1
  {
    hide Readable, ValueOf, Equal, NodeEqual, Sound, Settled, Uniform, EqualItems, AllFound, NodesEqual, NodesFound;
    hide SoundItems, SoundMembers;
    ReadableParts(mem, s);
    ReadableParts(mem, t);
    var kind, kind' := mem[s.ptr].node.kind, mem[t.ptr].node.kind;
    if s.ptr == t.ptr {
      SameNode(mem, s, t);
      SharedNode(mem, s, t, cs);
    } else if kind == kind' == KArray {
      EqualItemsExactly(mem, s.kids, t.kids, cs);
      ArrayNodes(mem, s, t, cs);
    } else if kind == kind' == KObject {
      EqualMembersExactly(mem, s.kids, t.kids, cs);
      EqualMembersExactly(mem, t.kids, s.kids, cs);
      ObjectNodes(mem, s, t, cs);
    } else {
      ScalarNodes(mem, s, t, cs);
    }
  }

  lemma SharedNode(mem: Mem, s: Tree, t: Tree, cs: bool)
    requires ItemAt(mem, s.ptr) && s.ptr == t.ptr && ValueOf(mem, s) == ValueOf(mem, t)
    ensures Equal(ValueOf(mem, s), ValueOf(mem, t), cs) <==> NodeEqual(mem, s, t, cs) && Sound(mem, s, t, cs)
  {
    hide ChainOf, Equal, Uniform;
    EqualToCopy(ValueOf(mem, s), cs);
  }

  lemma ArrayNodes(mem: Mem, s: Tree, t: Tree, cs: bool)
    requires ItemAt(mem, s.ptr) && ItemAt(mem, t.ptr) && s.ptr != t.ptr
    requires mem[s.ptr].node.kind == mem[t.ptr].node.kind == KArray
    ensures Equal(ValueOf(mem, s), ValueOf(mem, t), cs) <==> EqualItems(ChainOf(mem, s.kids), ChainOf(mem, t.kids), cs)
    ensures NodeEqual(mem, s, t, cs) <==> NodesEqual(mem, s.kids, t.kids, cs)
    ensures Sound(mem, s, t, cs) <==> SoundItems(mem, s.kids, t.kids, cs)
  {
    hide ChainOf, EqualItems, NodesEqual, SoundItems;
  }

  lemma ObjectNodes(mem: Mem, s: Tree, t: Tree, cs: bool)
    requires ItemAt(mem, s.ptr) && ItemAt(mem, t.ptr) && s.ptr != t.ptr
    requires mem[s.ptr].node.kind == mem[t.ptr].node.kind == KObject
    ensures var x, y := ChainOf(mem, s.kids), ChainOf(mem, t.kids);
            Equal(ValueOf(mem, s), ValueOf(mem, t), cs) <==> AllFound(x, y, cs) && AllFound(y, x, cs)
    ensures NodeEqual(mem, s, t, cs) <==> NodesFound(mem, s.kids, t.kids, cs) && NodesFound(mem, t.kids, s.kids, cs)
    ensures Sound(mem, s, t, cs) <==> SoundMembers(mem, s.kids, t.kids, cs) && SoundMembers(mem, t.kids, s.kids, cs)
  {
    hide ChainOf, AllFound, NodesFound, SoundMembers;
  }

  lemma ScalarNodes(mem: Mem, s: Tree, t: Tree, cs: bool)
    requires ItemAt(mem, s.ptr) && ItemAt(mem, t.ptr) && s.ptr != t.ptr
    requires var kind := mem[s.ptr].node.kind; kind != mem[t.ptr].node.kind || (kind != KArray && kind != KObject)
    ensures Equal(ValueOf(mem, s), ValueOf(mem, t), cs) <==> NodeEqual(mem, s, t, cs)
    ensures Sound(mem, s, t, cs)
  {
    hide ChainOf, StrAt;
  }

  lemma {:induction false} EqualItemsExactly(mem: Mem, x: seq<Tree>, y: seq<Tree>, cs: bool)
    requires forall i :: 0 <= i < |x| ==> Readable(mem, x[i])
    requires forall i :: 0 <= i < |y| ==> Readable(mem, y[i])
    ensures EqualItems(ChainOf(mem, x), ChainOf(mem, y), cs) <==> NodesEqual(mem, x, y, cs) && SoundItems(mem, x, y, cs)
    decreases WeightAll(x) + WeightAll(y), 2, |x|
  {
    hide Readable, Equal, NodeEqual, Sound, ValueOf, NameOf, Weight;
    if x != [] && y != [] {
      EqualExactly(mem, x[0], y[0], cs);
      EqualItemsExactly(mem, x[1..], y[1..], cs);
    }
  }

  lemma {:induction false} EqualMembersExactly(mem: Mem, x: seq<Tree>, y: seq<Tree>, cs: bool)
    requires forall i :: 0 <= i < |x| ==> Readable(mem, x[i])
    requires forall i :: 0 <= i < |y| ==> Readable(mem, y[i])
    ensures AllFound(ChainOf(mem, x), ChainOf(mem, y), cs)
       <==> NodesFound(mem, x, y, cs) && SoundMembers(mem, x, y, cs)
    decreases WeightAll(x) + WeightAll(y), 2, |x|
  {
    hide Readable, Equal, NodeEqual, Sound, ValueOf, NameOf, Weight, Find, FindKid;
    if x != [] {
      var k := FindKid(mem, y, NameOf(mem, x[0]), cs);
      FindKidValue(mem, y, NameOf(mem, x[0]), cs);
      if k < |y| { EqualExactly(mem, x[0], y[k], cs); }
      EqualMembersExactly(mem, x[1..], y, cs);
    }
  }

  /** The nodes met on a walk. */
  ghost function Nodes(t: Tree): set<Ptr>
    decreases t, 1
  {
    {t.ptr} + NodesAll(t.kids)
  }

  ghost function NodesAll(ts: seq<Tree>): set<Ptr>
    decreases ts, 0
  {
    if ts == [] then {} else Nodes(ts[0]) + NodesAll(ts[1..])
  }

  lemma {:induction false} NodesKid(ts: seq<Tree>, k: nat)
    requires k < |ts|
    ensures Nodes(ts[k]) <= NodesAll(ts)
    decreases k
  {
    hide Nodes;
    if k > 0 { NodesKid(ts[1..], k - 1); }
  }

  /** Without a shared node there is nothing the shortcut could add. */
  lemma {:induction false} ApartIsSound(mem: Mem, s: Tree, t: Tree, cs: bool)
    requires Nodes(s) !! Nodes(t)
    ensures Sound(mem, s, t, cs)
    decreases Weight(s) + Weight(t), 1
  {
    hide SoundItems, SoundMembers, NodesAll, Settled, Uniform, ValueOf;
    ApartItemsSound(mem, s.kids, t.kids, cs);
    ApartMembersSound(mem, s.kids, t.kids, cs);
    ApartMembersSound(mem, t.kids, s.kids, cs);
  }

  lemma {:induction false} ApartItemsSound(mem: Mem, x: seq<Tree>, y: seq<Tree>, cs: bool)
    requires NodesAll(x) !! NodesAll(y)
    ensures SoundItems(mem, x, y, cs)
    decreases WeightAll(x) + WeightAll(y), 2, |x|
  {
    hide Sound, Nodes, Weight;
    if x != [] && y != [] {
      ApartIsSound(mem, x[0], y[0], cs);
      ApartItemsSound(mem, x[1..], y[1..], cs);
    }
  }

  lemma {:induction false} ApartMembersSound(mem: Mem, x: seq<Tree>, y: seq<Tree>, cs: bool)
    requires NodesAll(x) !! NodesAll(y)
    ensures SoundMembers(mem, x, y, cs)
    decreases WeightAll(x) + WeightAll(y), 2, |x|
  {
    hide Sound, Nodes, Weight, FindKid;
    if x != [] {
      var k := FindKid(mem, y, NameOf(mem, x[0]), cs);
      if k < |y| {
        NodesKid(y, k);
        ApartIsSound(mem, x[0], y[k], cs);
      }
      ApartMembersSound(mem, x[1..], y, cs);
    }
  }

  lemma {:induction false} GoodKid(mem: Mem, ts: seq<Tree>, k: nat, cs: bool, named: bool)
    requires k < |ts| && SettledChain(ChainOf(mem, ts), named) && UniformChain(ChainOf(mem, ts), cs, named)
    ensures Settled(ValueOf(mem, ts[k])) && Uniform(ValueOf(mem, ts[k]), cs)
    decreases k
  {
    hide Settled, Uniform, ValueOf, NameOf, UniformFirst;
    if k > 0 { GoodKid(mem, ts[1..], k - 1, cs, named); }
  }

  /** Nor is there for items that are equal to their copies, whatever nodes they share. */
  lemma {:induction false} GoodIsSound(mem: Mem, s: Tree, t: Tree, cs: bool)
    requires Settled(ValueOf(mem, s)) && Uniform(ValueOf(mem, s), cs)
    requires Settled(ValueOf(mem, t)) && Uniform(ValueOf(mem, t), cs)
    ensures Sound(mem, s, t, cs)
    decreases Weight(s) + Weight(t), 1
  {
    hide SoundItems, SoundMembers, SettledChain, UniformChain, ChainOf, StrAt;
    if ItemAt(mem, s.ptr) && ItemAt(mem, t.ptr) && mem[s.ptr].node.kind == mem[t.ptr].node.kind {
      if mem[s.ptr].node.kind.KArray? {
        GoodItemsSound(mem, s.kids, t.kids, cs);
      } else if mem[s.ptr].node.kind.KObject? {
        GoodMembersSound(mem, s.kids, t.kids, cs);
        GoodMembersSound(mem, t.kids, s.kids, cs);
      }
    }
  }

  lemma {:induction false} GoodItemsSound(mem: Mem, x: seq<Tree>, y: seq<Tree>, cs: bool)
    requires SettledChain(ChainOf(mem, x), false) && UniformChain(ChainOf(mem, x), cs, false)
    requires SettledChain(ChainOf(mem, y), false) && UniformChain(ChainOf(mem, y), cs, false)
    ensures SoundItems(mem, x, y, cs)
    decreases WeightAll(x) + WeightAll(y), 2, |x|
  {
    hide Sound, Settled, Uniform, ValueOf, NameOf, Weight, UniformFirst;
    if x != [] && y != [] {
      GoodIsSound(mem, x[0], y[0], cs);
      GoodItemsSound(mem, x[1..], y[1..], cs);
    }
  }

  lemma {:induction false} GoodMembersSound(mem: Mem, x: seq<Tree>, y: seq<Tree>, cs: bool)
    requires SettledChain(ChainOf(mem, x), true) && UniformChain(ChainOf(mem, x), cs, true)
    requires SettledChain(ChainOf(mem, y), true) && UniformChain(ChainOf(mem, y), cs, true)
    ensures SoundMembers(mem, x, y, cs)
    decreases WeightAll(x) + WeightAll(y), 2, |x|
  {
    hide Sound, Settled, Uniform, ValueOf, NameOf, Weight, FindKid, UniformFirst;
    if x != [] {
      var k := FindKid(mem, y, NameOf(mem, x[0]), cs);
      if k < |y| {
        GoodKid(mem, y, k, cs, true);
        GoodIsSound(mem, x[0], y[k], cs);
      }
      GoodMembersSound(mem, x[1..], y, cs);
    }
  }

  /** An array that holds a NaN, and a reference to it: the nodes compare equal, the values do not. */
  lemma SharedNanEqual(cs: bool)
    ensures var nan := BLANK.(kind := KNumber, number := Nan);
            var list := BLANK.(kind := KArray, child := 3);
            var mem: Mem := map[1 := Item(list), 2 := Item(list.(isReference := true)), 3 := Item(nan)];
            var kid := Bare(3, NULL);
            var s, t := Tree(1, NULL, NULL, [kid]), Tree(2, NULL, NULL, [kid]);
            && Readable(mem, s) && Readable(mem, t)
            && NodeEqual(mem, s, t, cs) && !Equal(ValueOf(mem, s), ValueOf(mem, t), cs)
  {
    var nan := BLANK.(kind := KNumber, number := Nan);
    var list := BLANK.(kind := KArray, child := 3);
    var mem: Mem := map[1 := Item(list), 2 := Item(list.(isReference := true)), 3 := Item(nan)];
    var kid := Bare(3, NULL);
    var s, t := Tree(1, NULL, NULL, [kid]), Tree(2, NULL, NULL, [kid]);
    assert Readable(mem, kid) && NextLinked(mem, Ptrs([kid]));
    assert NodeEqual(mem, kid, kid, cs) && [kid][1..] == [];
    assert NodesEqual(mem, [kid], [kid], cs);
    assert ChainOf(mem, [kid]) == Link(Missing, Number(Nan), ChainOf(mem, []));
    assert !EqualItems(ChainOf(mem, [kid]), ChainOf(mem, [kid]), cs);
  }

  // ----- the code, loop by loop -----

  /** A lookup that passes no NULL name on the way: `strcmp` is called without a check. */
  ghost predicate Searchable(mem: Mem, ts: seq<Tree>, name: CStr, cs: bool)
    decreases |ts|
  {
    !cs || name.Missing? || ts == [] ||
    (NameOf(mem, ts[0]).Chars? && (SameName(name, NameOf(mem, ts[0]), cs) || Searchable(mem, ts[1..], name, cs)))
  }

  /** A comparison whose lookups are all like that, as far as it goes before the answer is known. */
  ghost predicate Comparable(mem: Mem, s: Tree, t: Tree, cs: bool)
    decreases Weight(s) + Weight(t), 1
  {
    ItemAt(mem, s.ptr) && ItemAt(mem, t.ptr) && s.ptr != t.ptr && mem[s.ptr].node.kind == mem[t.ptr].node.kind ==>
      match mem[s.ptr].node.kind
      case KArray => ComparableItems(mem, s.kids, t.kids, cs)
      case KObject =>
        && ComparableMembers(mem, s.kids, t.kids, cs)
        && (NodesFound(mem, s.kids, t.kids, cs) ==> ComparableMembers(mem, t.kids, s.kids, cs))
      case _ => true
  }

  ghost predicate ComparableItems(mem: Mem, x: seq<Tree>, y: seq<Tree>, cs: bool)
    decreases WeightAll(x) + WeightAll(y), 2, |x|
  {
    x != [] && y != [] ==>
      && Comparable(mem, x[0], y[0], cs)
      && (NodeEqual(mem, x[0], y[0], cs) ==> ComparableItems(mem, x[1..], y[1..], cs))
  }

  ghost predicate ComparableMembers(mem: Mem, x: seq<Tree>, y: seq<Tree>, cs: bool)
    decreases WeightAll(x) + WeightAll(y), 2, |x|
  {
    x == [] ||
    var k := FindKid(mem, y, NameOf(mem, x[0]), cs);
    && Searchable(mem, y, NameOf(mem, x[0]), cs)
    && (k < |y| ==>
          && Comparable(mem, x[0], y[k], cs)
          && (NodeEqual(mem, x[0], y[k], cs) ==> ComparableMembers(mem, x[1..], y, cs)))
  }

  /** When case is ignored NULL names are looked at, and nothing can go wrong. */
  lemma {:induction false} AlwaysComparable(mem: Mem, s: Tree, t: Tree)
    ensures Comparable(mem, s, t, false)
    decreases Weight(s) + Weight(t), 1
  {
    hide NodesFound, ComparableItems, ComparableMembers;
    AlwaysComparableItems(mem, s.kids, t.kids);
    AlwaysComparableMembers(mem, s.kids, t.kids);
    AlwaysComparableMembers(mem, t.kids, s.kids);
  }

  lemma {:induction false} AlwaysComparableItems(mem: Mem, x: seq<Tree>, y: seq<Tree>)
    ensures ComparableItems(mem, x, y, false)
    decreases WeightAll(x) + WeightAll(y), 2, |x|
  {
    hide Comparable, NodeEqual, Weight;
    if x != [] && y != [] {
      AlwaysComparable(mem, x[0], y[0]);
      AlwaysComparableItems(mem, x[1..], y[1..]);
    }
  }

  lemma {:induction false} AlwaysComparableMembers(mem: Mem, x: seq<Tree>, y: seq<Tree>)
    ensures ComparableMembers(mem, x, y, false)
    decreases WeightAll(x) + WeightAll(y), 2, |x|
  {
    hide Comparable, NodeEqual, Weight, FindKid, NameOf;
    if x != [] {
      var k := FindKid(mem, y, NameOf(mem, x[0]), false);
      if k < |y| { AlwaysComparable(mem, x[0], y[k]); }
      AlwaysComparableMembers(mem, x[1..], y);
    }
  }

  lemma MissingNotFound(mem: Mem, ts: seq<Tree>, cs: bool)
    ensures FindKid(mem, ts, Missing, cs) == |ts|
    decreases |ts|
  {
    hide NameOf, Weight, WeightAll;
    if ts != [] { MissingNotFound(mem, ts[1..], cs); }
  }

  /** The search has come to the item `k`. */
  ghost predicate Seeking(mem: Mem, ts: seq<Tree>, k: nat, name: CStr, cs: bool) {
    && k <= |ts| && Searchable(mem, ts[k..], name, cs)
    && FindKid(mem, ts, name, cs) == k + FindKid(mem, ts[k..], name, cs)
  }

  lemma SeekStep(mem: Mem, ts: seq<Tree>, k: nat, name: CStr, cs: bool)
    requires Seeking(mem, ts, k, name, cs) && k < |ts| && name.Chars?
    ensures if SameName(name, NameOf(mem, ts[k]), cs) then FindKid(mem, ts, name, cs) == k
            else Seeking(mem, ts, k + 1, name, cs)
  {
    hide NameOf, Weight, WeightAll, SameName;
    assert ts[k..][1..] == ts[k + 1..];
  }

  lemma SeekEnd(mem: Mem, ts: seq<Tree>, name: CStr, cs: bool)
    requires Seeking(mem, ts, |ts|, name, cs)
    ensures FindKid(mem, ts, name, cs) == |ts|
  {
    hide NameOf, Weight, WeightAll, SameName;
  }

  lemma SeekStart(mem: Mem, ts: seq<Tree>, name: CStr, cs: bool)
    requires Searchable(mem, ts, name, cs)
    ensures Seeking(mem, ts, 0, name, cs)
  {
    hide FindKid, Searchable;
    assert ts[0..] == ts;
  }

  lemma WalkName(mem: Mem, t: Tree)
    requires ItemAt(mem, t.ptr)
    ensures NameOf(mem, t) == StrAt(mem, mem[t.ptr].node.name)
  {
  }

  lemma WalkStops(mem: Mem, ts: seq<Tree>, k: nat, ch: Chain)
    requires Walk(mem, ts, k, NULL, ch)
    ensures k == |ts|
  {
    hide Readable;
  }

  /** A child with the name asked for. */
  ghost predicate Named(mem: Mem, t: Tree, name: CStr, cs: bool) {
    && name.Chars? && NameOf(mem, t).Chars?
    && if cs then NameOf(mem, t).text == name.text else SameLetters(name.text, NameOf(mem, t).text)
  }

  lemma NamedMeans(mem: Mem, t: Tree, name: CStr, cs: bool)
    ensures SameName(name, NameOf(mem, t), cs) <==> Named(mem, t, name, cs)
  {
    hide SameLetters, Folded;
    match (name, NameOf(mem, t))
    case (Chars(a), Chars(b)) => SameNameMeans(a, b, cs);
    case _ =>
  }

  lemma {:induction false} FindKidIsFirst(mem: Mem, ts: seq<Tree>, name: CStr, cs: bool)
    ensures var k := FindKid(mem, ts, name, cs);
            && (k < |ts| ==> Named(mem, ts[k], name, cs))
            && forall j :: 0 <= j < k ==> !Named(mem, ts[j], name, cs)
    decreases |ts|
  {
    hide Named, NameOf, SameName, Weight, WeightAll;
    if ts != [] {
      NamedMeans(mem, ts[0], name, cs);
      FindKidIsFirst(mem, ts[1..], name, cs);
      forall j | 0 < j < FindKid(mem, ts, name, cs) ensures !Named(mem, ts[j], name, cs) {
        assert ts[j] == ts[1..][j - 1];
      }
    }
  }

  /** `case_insensitive_strcmp` */
  method CompareIgnoringCase(a: CStr, b: CStr) returns (r: int)
    ensures r == 0 <==> a.Chars? && b.Chars? && SameLetters(a.text, b.text)
  {
    if a.Missing? || b.Missing? {
      return 1;
    }
    var s, t := a.text + [0], b.text + [0];
    var i := 0;
    while Lower(s[i]) == Lower(t[i])
      invariant i <= |a.text| && i <= |b.text|
      invariant forall j :: 0 <= j < i ==> SameLetter(a.text[j], b.text[j])
      decreases |s| - i
    {
      if s[i] == 0 {
        return 0;
      }
      i := i + 1;
    }
    return Lower(s[i]) - Lower(t[i]);
  }

  /** `strcmp`, which is called without a check for NULL, or the comparison above. */
  method SameText(ghost mem: Mem, ghost ts: seq<Tree>, ghost k: nat, name: CStr, other: CStr, cs: bool)
      returns (same: bool)
    requires Seeking(mem, ts, k, name, cs) && k < |ts| && name.Chars? && other == NameOf(mem, ts[k])
    ensures same <==> Named(mem, ts[k], name, cs)
  {
    if cs {
      same := name.text == other.text;
    } else {
      var order := CompareIgnoringCase(name, other);
      same := order == 0;
    }
  }

  /** `get_object_item`: the first child with the name, or NULL if no child has it. */
  method GetObjectItem(mem: Mem, parent: Ptr, ghost t: Tree, name: CStr, cs: bool) returns (item: Ptr)
    requires parent != NULL ==> Readable(mem, t) && parent == t.ptr && Searchable(mem, t.kids, name, cs)
    ensures item == if parent == NULL then NULL else PtrAt(Ptrs(t.kids), FindKid(mem, t.kids, name, cs))
    ensures parent != NULL && item == NULL ==> forall j :: 0 <= j < |t.kids| ==> !Named(mem, t.kids[j], name, cs)
    ensures parent != NULL && item != NULL ==>
              exists k :: 0 <= k < |t.kids| && item == t.kids[k].ptr && Named(mem, t.kids[k], name, cs)
                          && forall j :: 0 <= j < k ==> !Named(mem, t.kids[j], name, cs)
  {
    hide Walk, Readable, FindKid, Searchable, Seeking, SameName, StrAt, ValueOf, NameOf, Named, SameLetters;
    if parent == NULL {
      return NULL;
    }
    FindKidIsFirst(mem, t.kids, name, cs);
    if name.Missing? {
      MissingNotFound(mem, t.kids, cs);
      return NULL;
    }
    ghost var ts, k, ch := t.kids, 0, ChainOf(mem, t.kids);
    WalkStart(mem, t);
    SeekStart(mem, ts, name, cs);
    item := mem[parent].node.child;
    while item != NULL
      invariant Walk(mem, ts, k, item, ch) && Seeking(mem, ts, k, name, cs)
      decreases |ts| - k
    {
      WalkStep(mem, ts, k, item, ch);
      WalkName(mem, ts[k]);
      SeekStep(mem, ts, k, name, cs);
      NamedMeans(mem, ts[k], name, cs);
      var found := SameText(mem, ts, k, name, StrAt(mem, mem[item].node.name), cs);
      if found {
        return;
      }
      item := mem[item].node.next;
      ch, k := ch.next, k + 1;
    }
    WalkStops(mem, ts, k, ch);
    SeekEnd(mem, ts, name, cs);
  }

  /** `cJSON_Compare`; NULL is equal to nothing. */
  method CompareItems(mem: Mem, a: Ptr, b: Ptr, ghost s: Tree, ghost t: Tree, cs: bool) returns (r: bool)
    requires a != NULL ==> Readable(mem, s) && a == s.ptr
    requires b != NULL ==> Readable(mem, t) && b == t.ptr
    requires a != NULL && b != NULL ==> Comparable(mem, s, t, cs)
    ensures r <==> a != NULL && b != NULL && NodeEqual(mem, s, t, cs)
    decreases Weight(s) + Weight(t), 1
  {
    hide NodesEqual, NodesFound, ComparableItems, ComparableMembers, StrAt;
    if a == NULL || b == NULL || mem[a].node.kind != mem[b].node.kind || mem[a].node.kind == KInvalid {
      return false;
    }
    if a == b {
      return true;
    }
    match mem[a].node.kind
    case KNumber => r := DoubleEq(mem[a].node.number, mem[b].node.number);
    case KString => r := SameString(mem, mem[a].node.valuestring, mem[b].node.valuestring);
    case KRaw => r := SameString(mem, mem[a].node.valuestring, mem[b].node.valuestring);
    case KArray => r := CompareElements(mem, a, b, s, t, cs);
    case KObject =>
      r := CompareMembers(mem, a, b, s, t, cs);
      if r {
        r := CompareMembers(mem, b, a, t, s, cs);
      }
    case _ => r := true;
  }

  /** The array loop has come to the elements `k`. */
  ghost predicate ItemsLeft(mem: Mem, x: seq<Tree>, y: seq<Tree>, k: nat, cs: bool) {
    && k <= |x| && k <= |y| && ComparableItems(mem, x[k..], y[k..], cs)
    && (NodesEqual(mem, x[k..], y[k..], cs) <==> NodesEqual(mem, x, y, cs))
  }

  lemma ItemsLeftStart(mem: Mem, x: seq<Tree>, y: seq<Tree>, cs: bool)
    requires ComparableItems(mem, x, y, cs)
    ensures ItemsLeft(mem, x, y, 0, cs)
  {
    hide ComparableItems, NodesEqual;
    assert x[0..] == x && y[0..] == y;
  }

  lemma ItemsLeftStep(mem: Mem, x: seq<Tree>, y: seq<Tree>, k: nat, cs: bool)
    requires ItemsLeft(mem, x, y, k, cs) && k < |x| && k < |y|
    ensures Comparable(mem, x[k], y[k], cs)
    ensures if NodeEqual(mem, x[k], y[k], cs) then ItemsLeft(mem, x, y, k + 1, cs) else !NodesEqual(mem, x, y, cs)
  {
    hide Comparable, NodeEqual, Weight, WeightAll;
    assert x[k..][1..] == x[k + 1..] && y[k..][1..] == y[k + 1..];
  }

  lemma ItemsLeftEnd(mem: Mem, x: seq<Tree>, y: seq<Tree>, k: nat, cs: bool)
    requires ItemsLeft(mem, x, y, k, cs) && (k == |x| || k == |y|)
    ensures NodesEqual(mem, x, y, cs) <==> |x| == |y|
  {
    hide Comparable, NodeEqual, Weight, WeightAll;
  }

  /** The array loop: element by element, and no element left over. */
  method CompareElements(mem: Mem, a: Ptr, b: Ptr, ghost s: Tree, ghost t: Tree, cs: bool) returns (r: bool)
    requires Readable(mem, s) && a == s.ptr && Readable(mem, t) && b == t.ptr
    requires ComparableItems(mem, s.kids, t.kids, cs)
    ensures r <==> NodesEqual(mem, s.kids, t.kids, cs)
    decreases Weight(s) + Weight(t), 0
  {
    hide Walk, Readable, Comparable, NodeEqual, ItemsLeft, ComparableItems, NodesEqual, WeightAll;
    ghost var x, y, k, ch, ch' := s.kids, t.kids, 0, ChainOf(mem, s.kids), ChainOf(mem, t.kids);
    WalkStart(mem, s);
    WalkStart(mem, t);
    ItemsLeftStart(mem, x, y, cs);
    var p, q := mem[a].node.child, mem[b].node.child;
    while p != NULL && q != NULL
      invariant Walk(mem, x, k, p, ch) && Walk(mem, y, k, q, ch') && ItemsLeft(mem, x, y, k, cs)
      decreases |x| - k
    {
      WalkStep(mem, x, k, p, ch);
      WalkStep(mem, y, k, q, ch');
      ItemsLeftStep(mem, x, y, k, cs);
      WeightKid(x, k);
      WeightKid(y, k);
      r := CompareItems(mem, p, q, x[k], y[k], cs);
      if !r {
        return;
      }
      p, q := mem[p].node.next, mem[q].node.next;
      k, ch, ch' := k + 1, ch.next, ch'.next;
    }
    LoopsEnd(mem, x, y, k, p, q, ch, ch');
    ItemsLeftEnd(mem, x, y, k, cs);
    r := p == q;
  }

  lemma LoopsEnd(mem: Mem, x: seq<Tree>, y: seq<Tree>, k: nat, p: Ptr, q: Ptr, ch: Chain, ch': Chain)
    requires Walk(mem, x, k, p, ch) && Walk(mem, y, k, q, ch') && (p == NULL || q == NULL)
    ensures (k == |x| || k == |y|) && (p == q <==> |x| == |y|)
  {
    hide Readable;
  }

  /** A member loop has come to the member `k`. */
  ghost predicate MembersLeft(mem: Mem, x: seq<Tree>, y: seq<Tree>, k: nat, cs: bool) {
    && k <= |x| && ComparableMembers(mem, x[k..], y, cs)
    && (NodesFound(mem, x[k..], y, cs) <==> NodesFound(mem, x, y, cs))
  }

  lemma MembersLeftStart(mem: Mem, x: seq<Tree>, y: seq<Tree>, cs: bool)
    requires ComparableMembers(mem, x, y, cs)
    ensures MembersLeft(mem, x, y, 0, cs)
  {
    hide ComparableMembers, NodesFound;
    assert x[0..] == x;
  }

  lemma MembersLeftStep(mem: Mem, x: seq<Tree>, y: seq<Tree>, k: nat, cs: bool)
    requires MembersLeft(mem, x, y, k, cs) && k < |x|
    ensures var name := NameOf(mem, x[k]);
            var j := FindKid(mem, y, name, cs);
            && Searchable(mem, y, name, cs)
            && (j < |y| ==> Comparable(mem, x[k], y[j], cs))
            && (if j < |y| && NodeEqual(mem, x[k], y[j], cs) then MembersLeft(mem, x, y, k + 1, cs)
                else !NodesFound(mem, x, y, cs))
  {
    hide Comparable, NodeEqual, Weight, WeightAll, NameOf, FindKid, Searchable;
    assert x[k..][1..] == x[k + 1..];
  }

  lemma MembersLeftEnd(mem: Mem, x: seq<Tree>, y: seq<Tree>, cs: bool)
    requires MembersLeft(mem, x, y, |x|, cs)
    ensures NodesFound(mem, x, y, cs)
  {
    hide Comparable, NodeEqual, Weight, WeightAll, NameOf, FindKid, Searchable;
  }

  lemma KidFound(mem: Mem, t: Tree, j: nat)
    requires Readable(mem, t) && j <= |t.kids|
    ensures j < |t.kids| ==> Readable(mem, t.kids[j]) && t.kids[j].ptr == PtrAt(Ptrs(t.kids), j) != NULL
    ensures j == |t.kids| ==> PtrAt(Ptrs(t.kids), j) == NULL
  {
    if j < |t.kids| { assert ItemAt(mem, Ptrs(t.kids)[j]); }
  }

  /** One of the two member loops. */
  method CompareMembers(mem: Mem, a: Ptr, b: Ptr, ghost s: Tree, ghost t: Tree, cs: bool) returns (r: bool)
    requires Readable(mem, s) && a == s.ptr && Readable(mem, t) && b == t.ptr
    requires ComparableMembers(mem, s.kids, t.kids, cs)
    ensures r <==> NodesFound(mem, s.kids, t.kids, cs)
    decreases Weight(s) + Weight(t), 0
  {
    hide Walk, Readable, Comparable, NodeEqual, MembersLeft, ComparableMembers, NodesFound;
    hide WeightAll, FindKid, NameOf, StrAt;
    hide Searchable;
    ghost var x, y, k, ch := s.kids, t.kids, 0, ChainOf(mem, s.kids);
    WalkStart(mem, s);
    MembersLeftStart(mem, x, y, cs);
    assert b != NULL by { WalkStart(mem, t); }
    var p := mem[a].node.child;
    while p != NULL
      invariant Walk(mem, x, k, p, ch) && MembersLeft(mem, x, y, k, cs)
      decreases |x| - k
    {
      WalkStep(mem, x, k, p, ch);
      WalkName(mem, x[k]);
      MembersLeftStep(mem, x, y, k, cs);
      ghost var j := FindKid(mem, y, NameOf(mem, x[k]), cs);
      var found := GetObjectItem(mem, b, t, StrAt(mem, mem[p].node.name), cs);
      KidFound(mem, t, j);
      if found == NULL {
        return false;
      }
      WeightKid(x, k);
      r := CompareItems(mem, p, found, x[k], y[j], cs);
      if !r {
        return;
      }
      p := mem[p].node.next;
      k, ch := k + 1, ch.next;
    }
    WalkStops(mem, x, k, ch);
    MembersLeftEnd(mem, x, y, cs);
    r := true;
  }
}
