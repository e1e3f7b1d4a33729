/** The equality of values that `cJSON_Compare` decides, up to what its shortcut for one and the same node adds. */
module Compare {
  import opened CText
  import opened Doubles
  import opened Strings
  import opened Json

  // ----- names -----

  /** `tolower` in the C locale. */
  function Lower(c: uchar): uchar {
    if 65 <= c <= 90 then c + 32 else c
  }

  /** A name as it is compared: as it is, or in lower case. */
  function Folded(s: bytes, caseSensitive: bool): (r: bytes)
    ensures |r| == |s|
  {
    if caseSensitive then s else seq(|s|, i requires 0 <= i < |s| => Lower(s[i]))
  }

  /** `strcmp` or `case_insensitive_strcmp` giving 0; a NULL name matches nothing. */
  predicate SameName(a: CStr, b: CStr, caseSensitive: bool) {
    a.Chars? && b.Chars? && Folded(a.text, caseSensitive) == Folded(b.text, caseSensitive)
  }

  /** Two bytes that are taken for the same where case is ignored: equal, or one letter in either case. */
  predicate SameLetter(x: uchar, y: uchar) {
    x == y || (65 <= x <= 90 && y == x + 32) || (65 <= y <= 90 && x == y + 32)
  }

  predicate SameLetters(a: bytes, b: bytes) {
    |a| == |b| && forall i :: 0 <= i < |a| ==> SameLetter(a[i], b[i])
  }

  /** Which names match, without folding: the same bytes, or the same letters in either case. */
  lemma SameNameMeans(a: cstring, b: cstring, cs: bool)
    ensures SameName(Chars(a), Chars(b), cs) <==> if cs then a == b else SameLetters(a, b)
  {
    var x, y := Folded(a, cs), Folded(b, cs);
    if !cs {
      assert forall i :: 0 <= i < |a| ==> x[i] == Lower(a[i]);
      assert forall i :: 0 <= i < |b| ==> y[i] == Lower(b[i]);
    }
  }

  datatype Lookup = NoItem | Hit(value: Json)

  /** `get_object_item`: the first item with the name. */
  function Find(ch: Chain, name: CStr, cs: bool): (r: Lookup)
    ensures r.Hit? ==> Size(r.value) <= ChainSize(ch)
  {
    if ch.End? then NoItem
    else if SameName(name, ch.key, cs) then Hit(ch.value)
    else Find(ch.next, name, cs)
  }

  // ----- what `cJSON_Compare` computes -----

  function Equal(a: Json, b: Json, cs: bool): bool
    decreases Size(a) + Size(b), 1
  {
    match (a, b)
    case (Null, Null) => true
    case (False, False) => true
    case (True, True) => true
    case (Number(x), Number(y)) => DoubleEq(x, y)
    case (String(x), String(y)) => x.Chars? && x == y
    case (Raw(x), Raw(y)) => x.Chars? && x == y
    case (Array(x), Array(y)) => EqualItems(x, y, cs)
    case (Object(x), Object(y)) => AllFound(x, y, cs) && AllFound(y, x, cs)
    case _ => false
  }

  function EqualItems(x: Chain, y: Chain, cs: bool): bool
    decreases ChainSize(x) + ChainSize(y), 2, x
  {
    if x.Link? && y.Link? then
      SizePositive(x.value);
      SizePositive(y.value);
      Equal(x.value, y.value, cs) && EqualItems(x.next, y.next, cs)
    else x.End? && y.End?
  }

  /** Every member of `x` is equal to the first member of `y` with its name. */
  function AllFound(x: Chain, y: Chain, cs: bool): bool
    decreases ChainSize(x) + ChainSize(y), 2, x
  {
    if x.End? then true
    else
      SizePositive(x.value);
      var found := Find(y, x.key, cs);
      found.Hit? && Equal(x.value, found.value, cs) && AllFound(x.next, y, cs)
  }

  lemma SizePositive(t: Json)
    ensures Size(t) >= 1
  {
  }

  // ----- symmetry -----

  lemma {:induction false} EqualSymmetric(a: Json, b: Json, cs: bool)
    ensures Equal(a, b, cs) == Equal(b, a, cs)
    decreases a
  {
    hide AllFound;
    match (a, b)
    case (Array(x), Array(y)) => EqualItemsSymmetric(x, y, cs);
    case _ =>
  }

  lemma {:induction false} EqualItemsSymmetric(x: Chain, y: Chain, cs: bool)
    ensures EqualItems(x, y, cs) == EqualItems(y, x, cs)
    decreases x
  {
    hide Equal;
    if x.Link? && y.Link? {
      EqualSymmetric(x.value, y.value, cs);
      EqualItemsSymmetric(x.next, y.next, cs);
    }
  }

  // ----- transitivity -----

  lemma {:induction false} FindSame(ch: Chain, a: CStr, b: CStr, cs: bool)
    requires SameName(a, b, cs)
    ensures Find(ch, a, cs) == Find(ch, b, cs)
    decreases ch
  {
    if ch.Link? { FindSame(ch.next, a, b, cs); }
  }

  /** What is found in `x` is equal to what is found in `y`. */
  lemma {:induction false} FoundInBoth(x: Chain, y: Chain, name: CStr, cs: bool)
    requires AllFound(x, y, cs) && Find(x, name, cs).Hit?
    ensures Find(y, name, cs).Hit? && Equal(Find(x, name, cs).value, Find(y, name, cs).value, cs)
    decreases x
  {
    hide Equal;
    if SameName(name, x.key, cs) {
      FindSame(y, name, x.key, cs);
    } else {
      FoundInBoth(x.next, y, name, cs);
    }
  }

  /** Without any condition: what `cJSON_Compare` decides is transitive. */
  lemma {:induction false} EqualTransitive(a: Json, b: Json, c: Json, cs: bool)
    requires Equal(a, b, cs) && Equal(b, c, cs)
    ensures Equal(a, c, cs)
    decreases Size(a) + Size(b) + Size(c), 1
  {
    hide AllFound, EqualItems;
    match (a, b, c)
    case (Array(x), Array(y), Array(z)) => ItemsTransitive(x, y, z, cs);
    case (Object(x), Object(y), Object(z)) =>
      FoundTransitive(x, y, z, cs);
      FoundTransitive(z, y, x, cs);
    case _ =>
  }

  lemma {:induction false} ItemsTransitive(x: Chain, y: Chain, z: Chain, cs: bool)
    requires EqualItems(x, y, cs) && EqualItems(y, z, cs)
    ensures EqualItems(x, z, cs)
    decreases ChainSize(x) + ChainSize(y) + ChainSize(z), 2, x
  {
    hide Equal;
    if x.Link? {
      SizePositive(x.value);
      EqualTransitive(x.value, y.value, z.value, cs);
      ItemsTransitive(x.next, y.next, z.next, cs);
    }
  }

  lemma {:induction false} FoundTransitive(x: Chain, y: Chain, z: Chain, cs: bool)
    requires AllFound(x, y, cs) && AllFound(y, z, cs)
    ensures AllFound(x, z, cs)
    decreases ChainSize(x) + ChainSize(y) + ChainSize(z), 2, x
  {
    hide Equal, Find;
    if x.Link? {
      SizePositive(x.value);
      FoundInBoth(y, z, x.key, cs);
      EqualTransitive(x.value, Find(y, x.key, cs).value, Find(z, x.key, cs).value, cs);
      FoundTransitive(x.next, y, z, cs);
    }
  }

  // ----- equality up to member order -----

  /** An item with everything taken out that the comparison does not see: object members are a map. */
  datatype Canon =
    | CNull
    | CFalse
    | CTrue
    | CNumber(d: Double)
    | CString(s: bytes)
    | CRaw(raw: bytes)
    | CArray(items: CanonItems)
    | CObject(members: map<bytes, Canon>)
    | CNone

  datatype CanonItems = CEnd | CLink(value: Canon, next: CanonItems)

  function Canonical(t: Json, cs: bool): Canon {
    match t
    case Invalid => CNone
    case Null => CNull
    case False => CFalse
    case True => CTrue
    case Number(d) => CNumber(if IsZero(d) then Finite(0) else d)
    case String(s) => CString(TextOf(s))
    case Raw(s) => CRaw(TextOf(s))
    case Array(child) => CArray(CanonicalItems(child, cs))
    case Object(child) => CObject(CanonicalMembers(child, cs))
  }

  function CanonicalItems(ch: Chain, cs: bool): CanonItems {
    if ch.End? then CEnd else CLink(Canonical(ch.value, cs), CanonicalItems(ch.next, cs))
  }

  /** Of members with the same name the first one counts. */
  function CanonicalMembers(ch: Chain, cs: bool): map<bytes, Canon> {
    if ch.End? then map[]
    else CanonicalMembers(ch.next, cs)[Folded(TextOf(ch.key), cs) := Canonical(ch.value, cs)]
  }

  /** No NaN, no NULL string, no unset type anywhere, and every member of an object named. */
  predicate Settled(t: Json) {
    match t
    case Invalid => false
    case Number(d) => !d.Nan?
    case String(s) => s.Chars?
    case Raw(s) => s.Chars?
    case Array(child) => SettledChain(child, false)
    case Object(child) => SettledChain(child, true)
    case _ => true
  }

  predicate SettledChain(ch: Chain, named: bool) {
    ch.End? || ((named ==> ch.key.Chars?) && Settled(ch.value) && SettledChain(ch.next, named))
  }

  /** Members of one object whose names match have values that look the same. */
  predicate Uniform(t: Json, cs: bool) {
    match t
    case Array(child) => UniformChain(child, cs, false)
    case Object(child) => UniformChain(child, cs, true)
    case _ => true
  }

  predicate UniformChain(ch: Chain, cs: bool, members: bool) {
    ch.End? || (UniformFirst(ch, cs, members) && Uniform(ch.value, cs) && UniformChain(ch.next, cs, members))
  }

  predicate UniformFirst(ch: Chain, cs: bool, members: bool)
    requires ch.Link?
  {
    var again := Find(ch.next, ch.key, cs);
    members && again.Hit? ==> Canonical(again.value, cs) == Canonical(ch.value, cs)
  }

  lemma {:induction false} FindIsMember(ch: Chain, name: CStr, cs: bool)
    requires SettledChain(ch, true) && name.Chars?
    ensures var m := CanonicalMembers(ch, cs);
            var k := Folded(name.text, cs);
            var r := Find(ch, name, cs);
            && (r.Hit? <==> k in m)
            && (r.Hit? ==> m[k] == Canonical(r.value, cs) && Settled(r.value))
  {
    hide Canonical, Settled;
    if ch.Link? {
      FindIsMember(ch.next, name, cs);
    }
  }

  lemma {:induction false} FindUniform(ch: Chain, name: CStr, cs: bool)
    requires UniformChain(ch, cs, true) && Find(ch, name, cs).Hit?
    ensures Uniform(Find(ch, name, cs).value, cs)
  {
    hide Uniform, UniformFirst;
    if ch.Link? && !SameName(name, ch.key, cs) {
      FindUniform(ch.next, name, cs);
    }
  }

  lemma {:induction false} CanonicalEqual(a: Json, b: Json, cs: bool)
    requires Settled(a) && Settled(b) && Uniform(a, cs) && Uniform(b, cs)
    ensures Equal(a, b, cs) <==> Canonical(a, cs) == Canonical(b, cs)
    decreases Size(a) + Size(b), 1
  {
    hide AllFound, EqualItems, CanonicalItems, CanonicalMembers, SettledChain, UniformChain;
    match (a, b)
    case (Array(x), Array(y)) => ItemsCanonical(x, y, cs);
    case (Object(x), Object(y)) => MembersCanonical(x, y, cs);
    case _ =>
  }

  lemma {:induction false} ItemsCanonical(x: Chain, y: Chain, cs: bool)
    requires SettledChain(x, false) && SettledChain(y, false)
    requires UniformChain(x, cs, false) && UniformChain(y, cs, false)
    ensures EqualItems(x, y, cs) <==> CanonicalItems(x, cs) == CanonicalItems(y, cs)
    decreases ChainSize(x) + ChainSize(y), 2, x
  {
    hide Equal, Canonical, Settled, Uniform, UniformFirst;
    if x.Link? && y.Link? {
      SizePositive(x.value);
      CanonicalEqual(x.value, y.value, cs);
      ItemsCanonical(x.next, y.next, cs);
    }
  }

  /** Every member of `x` found equal in `y` is: the map of `x` is part of the map of `y`. */
  lemma {:induction false} FoundIsSubmap(x: Chain, y: Chain, cs: bool)
    requires SettledChain(x, true) && SettledChain(y, true) && UniformChain(x, cs, true) && UniformChain(y, cs, true)
    ensures var m, n := CanonicalMembers(x, cs), CanonicalMembers(y, cs);
            AllFound(x, y, cs) <==> forall k :: k in m ==> k in n && n[k] == m[k]
    decreases ChainSize(x) + ChainSize(y), 2, x
  {
    hide Equal, Canonical, Settled, Uniform, Find, Folded;
    if x.Link? {
      SizePositive(x.value);
      var n, rest := CanonicalMembers(y, cs), CanonicalMembers(x.next, cs);
      var k0 := Folded(TextOf(x.key), cs);
      FindIsMember(y, x.key, cs);
      FindIsMember(x.next, x.key, cs);
      var found := Find(y, x.key, cs);
      if found.Hit? {
        FindUniform(y, x.key, cs);
        CanonicalEqual(x.value, found.value, cs);
      }
      FoundIsSubmap(x.next, y, cs);
      SubmapOfUpdate(rest, n, k0, Canonical(x.value, cs));
    }
  }

  lemma SubmapOfUpdate(rest: map<bytes, Canon>, n: map<bytes, Canon>, k0: bytes, v: Canon)
    requires k0 in rest ==> rest[k0] == v
    ensures (forall k :: k in rest[k0 := v] ==> k in n && n[k] == rest[k0 := v][k])
       <==> k0 in n && n[k0] == v && forall k :: k in rest ==> k in n && n[k] == rest[k]
  {
    var m := rest[k0 := v];
    if forall k :: k in m ==> k in n && n[k] == m[k] {
      assert k0 in m;
      forall k | k in rest ensures k in n && n[k] == rest[k] {
        assert k in m && m[k] == rest[k];
      }
    }
  }

  lemma {:induction false} MembersCanonical(x: Chain, y: Chain, cs: bool)
    requires SettledChain(x, true) && SettledChain(y, true) && UniformChain(x, cs, true) && UniformChain(y, cs, true)
    ensures AllFound(x, y, cs) && AllFound(y, x, cs) <==> CanonicalMembers(x, cs) == CanonicalMembers(y, cs)
    decreases ChainSize(x) + ChainSize(y), 3
  {
    hide AllFound, CanonicalMembers, SettledChain, UniformChain;
    FoundIsSubmap(x, y, cs);
    FoundIsSubmap(y, x, cs);
  }

  // ----- which items compare equal -----

  /** An item that is equal to anything is equal to its own copy. */
  lemma EqualToSelf(a: Json, b: Json, cs: bool)
    requires Equal(a, b, cs)
    ensures Equal(a, a, cs) && Equal(b, b, cs)
  {
    hide Equal;
    EqualSymmetric(a, b, cs);
    EqualTransitive(a, b, a, cs);
    EqualTransitive(b, a, b, cs);
  }

  lemma {:induction false} SelfEqual(t: Json, cs: bool)
    requires Equal(t, t, cs)
    ensures Settled(t) && Uniform(t, cs)
    decreases t
  {
    hide AllFound, EqualItems, SettledChain, UniformChain;
    match t
    case Array(child) => SelfEqualItems(child, cs);
    case Object(child) => SelfEqualMembers(child, child, cs);
    case _ =>
  }

  lemma {:induction false} SelfEqualItems(ch: Chain, cs: bool)
    requires EqualItems(ch, ch, cs)
    ensures SettledChain(ch, false) && UniformChain(ch, cs, false)
    decreases ch
  {
    hide Equal, Settled, Uniform;
    if ch.Link? {
      SelfEqual(ch.value, cs);
      SelfEqualItems(ch.next, cs);
    }
  }

  lemma {:induction false} SelfEqualMembers(ch: Chain, whole: Chain, cs: bool)
    requires AllFound(ch, whole, cs)
    ensures SettledChain(ch, true) && UniformChain(ch, cs, true)
    decreases ch
  {
    hide Equal, Settled, Uniform, Find, SameName, Canonical;
    if ch.Link? {
      if ch.key.Missing? { NoNameNotFound(whole, cs); }
      var first := Find(whole, ch.key, cs);
      EqualToSelf(ch.value, first.value, cs);
      SelfEqual(ch.value, cs);
      SelfEqualMembers(ch.next, whole, cs);
      var again := Find(ch.next, ch.key, cs);
      if again.Hit? {
        FoundInBoth(ch.next, whole, ch.key, cs);
        EqualSymmetric(again.value, first.value, cs);
        EqualTransitive(ch.value, first.value, again.value, cs);
        FindIsMember(ch.next, ch.key, cs);
        FindUniform(ch.next, ch.key, cs);
        CanonicalEqual(ch.value, again.value, cs);
      }
    }
  }

  /**
   * What `cJSON_Compare` decides, for all items: the two are settled, neither has two different values under one
   * name, and they are the same up to the order of object members (and up to the case of names, if that is what
   * it was asked for).
   */
  lemma {:induction false} EqualIsCanonical(a: Json, b: Json, cs: bool)
    ensures Equal(a, b, cs) <==>
              && Settled(a) && Settled(b) && Uniform(a, cs) && Uniform(b, cs)
              && Canonical(a, cs) == Canonical(b, cs)
  {
    hide Equal, Settled, Uniform, Canonical;
    if Equal(a, b, cs) {
      EqualToSelf(a, b, cs);
      SelfEqual(a, cs);
      SelfEqual(b, cs);
    }
    if Settled(a) && Settled(b) && Uniform(a, cs) && Uniform(b, cs) {
      CanonicalEqual(a, b, cs);
    }
  }

  /** Which items compare equal to a copy of themselves. */
  lemma EqualToCopy(t: Json, cs: bool)
    ensures Equal(t, t, cs) <==> Settled(t) && Uniform(t, cs)
  {
    hide Equal, Settled, Uniform, Canonical;
    EqualIsCanonical(t, t, cs);
  }

  lemma {:induction false} NoNameNotFound(ch: Chain, cs: bool)
    ensures Find(ch, Missing, cs).NoItem?
    decreases ch
  {
    if ch.Link? { NoNameNotFound(ch.next, cs); }
  }

  /** With a name used twice an object can differ from its own copy: the lookup only sees the first. */
  lemma DuplicateNamesDiffer(cs: bool)
    ensures var a: CStr := Chars([97]);
            var t := Object(Link(a, True, Link(a, False, End)));
            Settled(t) && !Equal(t, t, cs)
  {
    var a: CStr := Chars([97]);
    var ch := Link(a, True, Link(a, False, End));
    assert Find(ch, a, cs) == Hit(True);
    assert !Equal(False, True, cs);
    assert !AllFound(ch.next, ch, cs);
    assert SettledChain(ch.next, true);
  }
}
