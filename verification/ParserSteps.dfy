/** Positions in the parse buffer, and one step of the parser after the other, in terms of the functions on the text. */
module ParserSteps {
  import opened CText
  import opened Doubles
  import opened Strings
  import opened StringProofs
  import opened Json
  import opened CHeap
  import opened ItemValues
  import opened StringDecoder
  import P = Parser

  /** The text from position `i` on. */
  ghost function From(content: bytes, i: nat): (u: bytes)
    ensures i <= |content| ==> |u| == |content| - i
  {
    if i <= |content| then content[i..] else []
  }

  lemma FromFirst(content: bytes, i: nat)
    requires Terminated(content) && i < |content|
    ensures Terminated(From(content, i)) && From(content, i)[0] == content[i]
  {
  }

  lemma FromNext(content: bytes, i: nat)
    requires Terminated(content) && i < |content| && content[i] != 0
    ensures i + 1 < |content| && From(content, i)[1..] == From(content, i + 1)
    ensures Terminated(From(content, i)) && Terminated(From(content, i + 1))
  {
  }

  /**
   * How a step that is to fill in the item of `e` ends. Success: as the function on the text says, with new
   * blocks for exactly the new tree. Failure: the heap is what it was, and unless an allocation failed the
   * function on the text fails too, at the same position.
   */
  ghost predicate Outcome(content: bytes, r: Parsed<Json>, was: Mem, mem: Mem, e: Tree, t: Tree,
                          ok: bool, offset: nat, starved: bool) {
    if ok then
      && r.Ok? && offset < |content| && From(content, offset) == r.rest
      && Filled(was, mem, e, t) && ValueOf(mem, t) == r.value
    else
      mem == was && offset <= |content| && (starved || (r.Err? && offset == |content| - |r.rest|))
  }

  /** The same for the list of an array or object, from the bracket or comma in front to the closing bracket. */
  ghost predicate ListOutcome(content: bytes, r: Parsed<Chain>, base: Mem, mem: Mem, head: Ptr, ts: seq<Tree>,
                              ok: bool, offset: nat, starved: bool) {
    if ok then
      && r.Ok? && offset + 1 < |content| && From(content, offset + 1) == r.rest
      && Built(base, mem, ts) && head == Head(Ptrs(ts)) && ChainOf(mem, ts) == r.value
    else
      mem == base && offset <= |content| && (starved || (r.Err? && offset == |content| - |r.rest|))
  }

  // ----- reading strings -----

  lemma LiteralFound(u: bytes, v: bytes, n: nat, tail: bytes)
    requires u != [] && u[0] == QUOTE && v == u[1..] && ScanQuote(v) == At(n) && tail == u[n + 2..]
    ensures var d := Decode(v, n);
            Strings.ParseString(u) == if d.ok then Ok(UpToNul(d.out), tail) else Err(d.rest)
  {
    hide ScanQuote, Decode, UpToNul;
  }

  lemma LiteralResult(content: bytes, offset: nat, inputEnd: nat)
    requires offset < inputEnd < |content| && content[offset] == QUOTE
    requires ScanQuote(content[offset + 1..]) == At(inputEnd - offset - 1) && content[inputEnd] == QUOTE
    ensures var d := DecodeFrom(content, offset + 1, inputEnd);
            Strings.ParseString(From(content, offset))
            == if d.ok then Ok(UpToNul(d.out), From(content, inputEnd + 1)) else Err(d.rest)
  {
    hide ScanQuote, Decode, UpToNul, Strings.ParseString;
    Tails(content, offset, 1);
    Tails(content, offset, inputEnd + 1 - offset);
    LiteralFound(content[offset..], content[offset + 1..], inputEnd - offset - 1, content[inputEnd + 1..]);
  }

  lemma LiteralMissing(content: bytes, offset: nat)
    requires offset < |content|
    requires content[offset] != QUOTE || ScanQuote(content[offset + 1..]).NotFound?
    ensures Strings.ParseString(From(content, offset)) == Err(From(content, offset + 1))
  {
    hide ScanQuote, Decode, UpToNul;
    Tails(content, offset, 1);
  }

  lemma NotLast(content: bytes, i: nat)
    requires Terminated(content) && i < |content| && content[i] != 0
    ensures i + 1 < |content|
  {
  }

  /** What `parse_string` allocates is enough for what it writes and the terminator, whatever the input. */
  lemma AllocationFits(content: bytes, start: nat, inputEnd: nat, skippedBytes: nat)
    requires start <= inputEnd < |content| && content[inputEnd] == QUOTE
    requires skippedBytes == Begun(content[start..], inputEnd - start, false)
    ensures |DecodeFrom(content, start, inputEnd).out| + 1 <= inputEnd - (start - 1) - skippedBytes + 1
  {
    hide Decode, Begun;
    DecodeFits(content[start..], inputEnd - start, false);
  }

  lemma {:induction false} UpToFirstNul(out: bytes, tail: bytes)
    ensures UpToNul(out + [0] + tail) == UpToNul(out)
    decreases |out|
  {
    if out == [] {
      assert out + [0] + tail == [0] + tail;
    } else {
      assert (out + [0] + tail)[1..] == out[1..] + [0] + tail;
      UpToFirstNul(out[1..], tail);
    }
  }

  lemma TerminatedBlock(junk: bytes, out: bytes)
    requires |out| + 1 <= |junk|
    ensures UpToNul(Overwrite(junk, 0, out)[|out| := 0]) == UpToNul(out)
  {
    hide UpToNul;
    var tail := junk[|out| + 1..];
    assert Overwrite(junk, 0, out)[|out| := 0] == out + [0] + tail;
    UpToFirstNul(out, tail);
  }

  lemma Discarded(was: Mem, mem: Mem, p: Ptr, b: Block)
    requires p !in was && mem == was[p := b]
    ensures mem - {p} == was
  {
  }

  /** All bytes from `start` to `i` are skipped; when that is the end of the buffer, one step back. */
  ghost predicate Skipped(content: bytes, start: nat, i: nat) {
    && start <= i <= |content| && start < |content|
    && SkipWs(From(content, start)) == if i < |content| then SkipWs(From(content, i)) else From(content, |content| - 1)
  }

  lemma SkipStart(content: bytes, start: nat)
    requires start < |content|
    ensures Skipped(content, start, start)
  {
  }

  lemma SkipOne(content: bytes, start: nat, i: nat)
    requires Skipped(content, start, i) && i < |content| && content[i] <= 32
    ensures Skipped(content, start, i + 1)
  {
    Tails(content, i, 1);
  }

  lemma SkipStops(content: bytes, start: nat, i: nat)
    requires Skipped(content, start, i) && (i < |content| ==> content[i] > 32)
    ensures SkipWs(From(content, start)) == From(content, if i < |content| then i else i - 1)
  {
  }

  lemma NumberResult(content: bytes, c: Codec, i: nat)
    requires i < |content| && Terminated(content)
    ensures var u := From(content, i);
            var run := P.NumberRun(u, NUMBER_BUFFER);
            var scan := c.strtod(u[..run]);
            P.ParseNumber(c, u) == if scan.used == 0 || scan.used > run then Err(u)
                                   else Ok(Number(scan.value), From(content, i + scan.used))
    ensures P.NumberRun(From(content, i), NUMBER_BUFFER) < |content| - i
  {
    hide P.NumberRun, From;
    FromFirst(content, i);
    RunInside(From(content, i));
    var used := c.strtod(From(content, i)[..P.NumberRun(From(content, i), NUMBER_BUFFER)]).used;
    FromDrop(content, i, if used < |content| - i then used else 0);
  }

  lemma RunInside(u: bytes)
    requires Terminated(u)
    ensures P.NumberRun(u, NUMBER_BUFFER) < |u|
  {
    hide P.NumberRun;
    assert !NumberByte(u[|u| - 1]);
  }

  lemma FromDrop(content: bytes, i: nat, k: nat)
    requires i + k <= |content|
    ensures From(content, i)[k..] == From(content, i + k)
  {
  }

  lemma OutputBlock(was: Mem, mem: Mem, output: Ptr, out: bytes)
    requires Output(was, mem, output, out)
    ensures output in mem && mem[output].Text? && mem == was[output := mem[output]]
    ensures mem[output].data == Overwrite(was[output].data, 0, out)
  {
  }

  lemma RunOne(u: bytes, i: nat)
    requires i < |u| && i < NUMBER_BUFFER && NumberByte(u[i])
    ensures P.NumberRun(u[i..], NUMBER_BUFFER - i) == 1 + P.NumberRun(u[i + 1..], NUMBER_BUFFER - (i + 1))
  {
    Tails(u, i, 1);
  }

  lemma RunNone(u: bytes, i: nat)
    requires i <= |u| && i <= NUMBER_BUFFER && (i == NUMBER_BUFFER || i == |u| || !NumberByte(u[i]))
    ensures P.NumberRun(u[i..], NUMBER_BUFFER - i) == 0
  {
  }

  // ----- what parse_value reads -----

  lemma LiteralRead(content: bytes, i: nat, w: cstring, value: Json)
    requires Terminated(content) && i < |content| && i + |w| <= |content| && content[i..i + |w|] == w
    requires || (w == NULL_TEXT && value == Null)
             || (w == FALSE_TEXT && value == False)
             || (w == TRUE_TEXT && value == True)
    ensures i + |w| < |content| && P.ParseLiteral(From(content, i)) == Ok(value, From(content, i + |w|))
  {
    var u := From(content, i);
    Tails(content, i, |w|);
    assert u[..|w|] == w;
    assert u[0] == w[0];
    assert content[i + |w| - 1] == content[i..i + |w|][|w| - 1] != 0;
    assert value == False ==> u[..4] != NULL_TEXT by { assert value == False ==> u[..4][0] != NULL_TEXT[0]; }
    assert value == True ==> u[..4] != NULL_TEXT by { assert value == True ==> u[..4][0] != NULL_TEXT[0]; }
    assert value == True && |u| >= 5 ==> u[..5] != FALSE_TEXT by {
      assert value == True && |u| >= 5 ==> u[..5][0] != FALSE_TEXT[0];
    }
  }

  lemma NoLiteral(content: bytes, i: nat)
    requires i < |content|
    requires !(i + 4 <= |content| && content[i..i + 4] == NULL_TEXT)
    requires !(i + 5 <= |content| && content[i..i + 5] == FALSE_TEXT)
    requires !(i + 4 <= |content| && content[i..i + 4] == TRUE_TEXT)
    ensures P.ParseLiteral(From(content, i)) == Err(From(content, i))
  {
    var u := From(content, i);
    assert |u| >= 4 ==> u[..4] == content[i..i + 4];
    assert |u| >= 5 ==> u[..5] == content[i..i + 5];
  }

  lemma LiteralOutcome(content: bytes, u: bytes, was: Mem, mem: Mem, e: Tree, ok: bool, offset: nat, starved: bool)
    requires Outcome(content, P.ParseLiteral(u), was, mem, e, e, ok, offset, false)
    ensures ok ==> P.ParseLiteral(u).Ok? && Outcome(content, P.ParseLiteral(u), was, mem, e, e, ok, offset, starved)
    ensures !ok ==> mem == was && P.ParseLiteral(u).Err?
  {
  }

  lemma LiteralDone(content: bytes, r: Parsed<Json>, value: Json, was: Mem, mem: Mem, e: Tree, offset: nat)
    requires Filled(was, mem, e, e) && ItemAt(mem, e.ptr) && offset < |content| && r == Ok(value, From(content, offset))
    requires var kind := mem[e.ptr].node.kind;
             (value == Null && kind == KNull) || (value == False && kind == KFalse) || (value == True && kind == KTrue)
    ensures Outcome(content, r, was, mem, e, e, true, offset, false)
  {
    hide Owned, Plain, Filled, From;
  }

  lemma NoOutcome(content: bytes, u: bytes, was: Mem, e: Tree, offset: nat, starved: bool)
    requires offset < |content| && From(content, offset) == u
    ensures Outcome(content, Err(u), was, was, e, e, false, offset, starved)
  {
  }

  lemma TextValue(mem: Mem, t: Tree)
    requires ItemAt(mem, t.ptr) && mem[t.ptr].node.kind == KString
    ensures ValueOf(mem, t) == String(StrAt(mem, mem[t.ptr].node.valuestring))
  {
    hide StrAt;
  }

  lemma TextResult(content: bytes, i: nat)
    requires Terminated(content) && i < |content|
    ensures Terminated(From(content, i))
    ensures P.ParseText(From(content, i)) == match Strings.ParseString(From(content, i))
                                         case Err(rest) => Err(rest)
                                         case Ok(s, rest) => Ok(String(Chars(s)), rest)
  {
    hide Strings.ParseString;
  }

  // ----- the loop of parse_array -----

  /** The links read so far, put before those still to come. */
  function Ahead(done: Chain, r: Parsed<Chain>): Parsed<Chain> {
    match r
    case Err(rest) => Err(rest)
    case Ok(ch, rest) => Ok(Concat(done, ch), rest)
  }

  /**
   * The state of the loop: `r` is what the whole list will come to. Before an element the offset is on the
   * bracket or comma in front of it; when there are no more, on whatever follows the last element.
   */
  ghost predicate Elements(c: Codec, content: bytes, r: Parsed<Chain>, done: Chain, offset: nat, d: nat, more: bool) {
    && Terminated(content) && offset < |content|
    && if more then
         && offset + 1 < |content| && Terminated(SkipWs(From(content, offset + 1)))
         && r == Ahead(done, P.ParseItems(c, SkipWs(From(content, offset + 1)), d))
       else
         r == if content[offset] == RBRACKET then Ok(done, From(content, offset + 1)) else Err(From(content, offset))
  }

  lemma ElementsStart(c: Codec, content: bytes, j: nat, d: nat)
    requires Terminated(content) && 0 < j < |content| && SkipWs(From(content, j)) == From(content, j)
    ensures Terminated(From(content, j))
    ensures Elements(c, content, P.ParseItems(c, From(content, j), d), End, j - 1, d, true)
  {
    hide SkipWs, P.ParseItems, From;
    FromFirst(content, j);
    AheadNone(P.ParseItems(c, From(content, j), d));
    assert j - 1 + 1 == j;
  }

  lemma AheadNone(r: Parsed<Chain>)
    ensures Ahead(End, r) == r
  {
  }

  lemma NoLinks(mem: Mem)
    ensures ChainOf(mem, []) == End
  {
  }

  lemma ElementsNow(c: Codec, content: bytes, r: Parsed<Chain>, done: Chain, i: nat, d: nat)
    requires Elements(c, content, r, done, i, d, true)
    ensures i + 1 < |content|
  {
    hide SkipWs, P.ParseItems;
  }

  lemma ElementsEnd(c: Codec, content: bytes, r: Parsed<Chain>, done: Chain, offset: nat, d: nat)
    requires Elements(c, content, r, done, offset, d, false)
    ensures offset < |content|
    ensures r == if content[offset] == RBRACKET then Ok(done, From(content, offset + 1)) else Err(From(content, offset))
    ensures r.Ok? ==> offset + 1 < |content|
  {
  }

  lemma ElementsFail(c: Codec, content: bytes, r: Parsed<Chain>, done: Chain, i: nat, d: nat)
    requires Elements(c, content, r, done, i, d, true)
    ensures i + 1 < |content| && Terminated(SkipWs(From(content, i + 1)))
    ensures var one := P.ParseValue(c, SkipWs(From(content, i + 1)), d);
            one.Err? ==> r == Err(one.rest)
  {
    hide SkipWs, P.ParseValue;
  }

  lemma ElementsNext(c: Codec, content: bytes, r: Parsed<Chain>, done: Chain, i: nat, d: nat, j: nat)
    requires Elements(c, content, r, done, i, d, true)
    requires i + 1 < |content| && Terminated(SkipWs(From(content, i + 1))) && j < |content|
    requires var one := P.ParseValue(c, SkipWs(From(content, i + 1)), d);
             one.Ok? && From(content, j) == SkipWs(one.rest)
    ensures var one := P.ParseValue(c, SkipWs(From(content, i + 1)), d);
            Elements(c, content, r, Snoc(done, Missing, one.value), j, d, content[j] == COMMA)
  {
    hide SkipWs, P.ParseValue, P.ParseItems, Concat, From;
    ItemsNext(c, SkipWs(From(content, i + 1)), d, done);
    FromFirst(content, j);
    if content[j] != 0 {
      FromNext(content, j);
    }
  }

  lemma ItemsNext(c: Codec, v: bytes, d: nat, done: Chain)
    requires Terminated(v) && P.ParseValue(c, v, d).Ok?
    ensures Terminated(SkipWs(P.ParseValue(c, v, d).rest))
    ensures var one := P.ParseValue(c, v, d);
            var w, done' := SkipWs(one.rest), Snoc(done, Missing, one.value);
            Ahead(done, P.ParseItems(c, v, d))
            == if w[0] == COMMA then Ahead(done', P.ParseItems(c, P.NextToken(w), d))
               else if w[0] == RBRACKET then Ok(done', P.Rest(w))
               else Err(w)
  {
    hide SkipWs, P.ParseValue, P.NextToken, P.Rest, Concat, Snoc;
    var one := P.ParseValue(c, v, d);
    SkipWsTerminated(one.rest);
    var w := SkipWs(one.rest);
    SnocEnd(done, Missing, one.value);
    if w[0] == COMMA {
      var more := P.ParseItems(c, P.NextToken(w), d);
      if more.Ok? {
        ConcatSnoc(done, Missing, one.value, more.value);
      }
    }
  }

  lemma SnocEnd(done: Chain, key: CStr, value: Json)
    ensures Concat(done, Link(key, value, End)) == Snoc(done, key, value)
  {
    ConcatSnoc(done, key, value, End);
    ConcatEnd(Snoc(done, key, value));
  }

  lemma ArrayTooDeep(c: Codec, content: bytes, i: nat, depth: nat)
    requires Terminated(content) && i < |content| && content[i] == LBRACKET && depth >= NESTING_LIMIT
    ensures P.ParseArray(c, From(content, i), depth) == Err(From(content, i))
  {
  }

  function ArrayOf(r: Parsed<Chain>): Parsed<Json> {
    match r
    case Ok(ch, rest) => Ok(Array(ch), rest)
    case Err(rest) => Err(rest)
  }

  lemma ArrayUnfolds(c: Codec, u: bytes, v: bytes, depth: nat)
    requires Terminated(u) && u[0] == LBRACKET && depth < NESTING_LIMIT && v == P.NextToken(u)
    ensures v[0] == RBRACKET ==> P.ParseArray(c, u, depth) == ArrayOf(Ok(End, P.Rest(v)))
    ensures v[0] != RBRACKET ==> P.ParseArray(c, u, depth) == ArrayOf(P.ParseItems(c, v, depth + 1))
  {
    hide P.NextToken, P.Rest, P.ParseItems, Terminated;
  }

  lemma NextByte(u: bytes)
    requires Terminated(u) && u[0] != 0
    ensures |u| > 1 && P.NextToken(u) == SkipWs(u[1..]) && P.Rest(u) == u[1..]
  {
    hide SkipWs;
    TerminatedHead(u);
  }

  lemma TokenFrom(content: bytes, i: nat, j: nat)
    requires Terminated(content) && i < j < |content| && content[i] != 0
    requires From(content, j) == SkipWs(From(content, i + 1))
    ensures Terminated(From(content, i)) && From(content, i)[0] == content[i]
    ensures P.NextToken(From(content, i)) == From(content, j)
    ensures Terminated(From(content, j)) && From(content, j)[0] == content[j]
    ensures SkipWs(From(content, j)) == From(content, j)
    ensures content[j] != 0 ==> j + 1 < |content| && P.Rest(From(content, j)) == From(content, j + 1)
  {
    hide From, SkipWs, P.NextToken, P.Rest, Terminated;
    FromFirst(content, i);
    FromNext(content, i);
    NextByte(From(content, i));
    FromFirst(content, j);
    SkipTwice(From(content, i + 1));
    if content[j] != 0 {
      FromNext(content, j);
      NextByte(From(content, j));
    }
  }

  /** After the bracket and whitespace: the empty array, or the list the loop is to read from one byte back on. */
  lemma ArrayCases(c: Codec, content: bytes, i: nat, j: nat, depth: nat) returns (list: Parsed<Chain>)
    requires Terminated(content) && i < j < |content| && content[i] == LBRACKET && depth < NESTING_LIMIT
    requires From(content, j) == SkipWs(From(content, i + 1))
    ensures Terminated(From(content, i)) && From(content, i)[0] == LBRACKET
    ensures content[j] == RBRACKET ==> j + 1 < |content| && list == Ok(End, From(content, j + 1))
    ensures content[j] != RBRACKET ==> Elements(c, content, list, End, j - 1, depth + 1, true)
    ensures P.ParseArray(c, From(content, i), depth) == ArrayOf(list)
  {
    hide SkipWs, P.ParseItems, P.NextToken, P.Rest, P.ParseArray, From, Elements, Terminated, ArrayOf;
    TokenFrom(content, i, j);
    ArrayUnfolds(c, From(content, i), From(content, j), depth);
    if content[j] == RBRACKET {
      list := Ok(End, From(content, j + 1));
    } else {
      ElementsStart(c, content, j, depth + 1);
      list := P.ParseItems(c, From(content, j), depth + 1);
    }
  }

  lemma ListDone(content: bytes, list: Parsed<Chain>, r: Parsed<Json>, was: Mem, mem: Mem, e: Tree, t: Tree,
                 offset: nat, starved: bool)
    requires ItemAt(mem, t.ptr) && Filled(was, mem, e, t) && offset < |content|
    requires list == Ok(ChainOf(mem, t.kids), From(content, offset))
    requires var kind := mem[t.ptr].node.kind;
             (r == ArrayOf(list) && kind == KArray) || (r == ObjectOf(list) && kind == KObject)
    ensures Outcome(content, r, was, mem, e, t, true, offset, starved)
  {
  }

  lemma SkipTwice(u: bytes)
    requires |u| >= 1
    ensures SkipWs(SkipWs(u)) == SkipWs(u)
  {
    hide SkipWs;
    SkipStays(SkipWs(u));
  }

  lemma SkipStays(u: bytes)
    requires |u| >= 1 && (|u| > 1 ==> u[0] > 32)
    ensures SkipWs(u) == u
  {
  }

  // ----- the loop of parse_object -----

  /**
   * The state of the loop: `r` is what the whole list will come to. Before a member the offset is on the
   * brace or comma in front of it; when there are no more, on whatever follows the last member.
   */
  ghost predicate Members(c: Codec, content: bytes, r: Parsed<Chain>, done: Chain, offset: nat, d: nat, more: bool) {
    && Terminated(content) && offset < |content|
    && if more then
         && offset + 1 < |content| && Terminated(SkipWs(From(content, offset + 1)))
         && r == Ahead(done, P.ParseMembers(c, SkipWs(From(content, offset + 1)), d))
       else
         r == if content[offset] == RBRACE then Ok(done, From(content, offset + 1)) else Err(From(content, offset))
  }

  lemma MembersStart(c: Codec, content: bytes, j: nat, d: nat)
    requires Terminated(content) && 0 < j < |content| && SkipWs(From(content, j)) == From(content, j)
    ensures Terminated(From(content, j))
    ensures Members(c, content, P.ParseMembers(c, From(content, j), d), End, j - 1, d, true)
  {
    hide SkipWs, P.ParseMembers, From;
    FromFirst(content, j);
    AheadNone(P.ParseMembers(c, From(content, j), d));
    assert j - 1 + 1 == j;
  }

  lemma MembersNow(c: Codec, content: bytes, r: Parsed<Chain>, done: Chain, i: nat, d: nat)
    requires Members(c, content, r, done, i, d, true)
    ensures i + 1 < |content|
  {
    hide SkipWs, P.ParseMembers;
  }

  lemma MembersEnd(c: Codec, content: bytes, r: Parsed<Chain>, done: Chain, offset: nat, d: nat)
    requires Members(c, content, r, done, offset, d, false)
    ensures offset < |content|
    ensures r == if content[offset] == RBRACE then Ok(done, From(content, offset + 1)) else Err(From(content, offset))
    ensures r.Ok? ==> offset + 1 < |content|
  {
  }

  lemma MembersFail(c: Codec, content: bytes, r: Parsed<Chain>, done: Chain, i: nat, d: nat)
    requires Members(c, content, r, done, i, d, true)
    ensures i + 1 < |content| && Terminated(SkipWs(From(content, i + 1)))
    ensures var k := P.ParseName(SkipWs(From(content, i + 1)));
            && (k.Err? ==> r == Err(k.rest))
            && (k.Ok? ==> var one := P.ParseValue(c, k.rest, d); one.Err? ==> r == Err(one.rest))
  {
    hide SkipWs, P.ParseValue, P.ParseName, From, Terminated;
  }

  lemma MembersNext(c: Codec, content: bytes, r: Parsed<Chain>, done: Chain, i: nat, d: nat, j: nat)
    requires Members(c, content, r, done, i, d, true)
    requires i + 1 < |content| && Terminated(SkipWs(From(content, i + 1))) && j < |content|
    requires var k := P.ParseName(SkipWs(From(content, i + 1)));
             k.Ok? && var one := P.ParseValue(c, k.rest, d); one.Ok? && From(content, j) == SkipWs(one.rest)
    ensures var k := P.ParseName(SkipWs(From(content, i + 1)));
            var one := P.ParseValue(c, k.rest, d);
            Members(c, content, r, Snoc(done, Chars(k.value), one.value), j, d, content[j] == COMMA)
  {
    hide SkipWs, P.ParseValue, P.ParseName, P.ParseMembers, Concat, From;
    NextMember(c, SkipWs(From(content, i + 1)), d, done);
    FromFirst(content, j);
    if content[j] != 0 {
      FromNext(content, j);
    }
  }

  lemma NextMember(c: Codec, v: bytes, d: nat, done: Chain)
    requires Terminated(v) && P.ParseName(v).Ok? && P.ParseValue(c, P.ParseName(v).rest, d).Ok?
    ensures Terminated(SkipWs(P.ParseValue(c, P.ParseName(v).rest, d).rest))
    ensures var one := P.ParseValue(c, P.ParseName(v).rest, d);
            var w, done' := SkipWs(one.rest), Snoc(done, Chars(P.ParseName(v).value), one.value);
            Ahead(done, P.ParseMembers(c, v, d))
            == if w[0] == COMMA then Ahead(done', P.ParseMembers(c, P.NextToken(w), d))
               else if w[0] == RBRACE then Ok(done', P.Rest(w))
               else Err(w)
  {
    hide SkipWs, P.ParseValue, P.ParseName, P.NextToken, P.Rest, Concat, Snoc;
    var k := P.ParseName(v);
    var one := P.ParseValue(c, k.rest, d);
    SkipWsTerminated(one.rest);
    var w := SkipWs(one.rest);
    SnocEnd(done, Chars(k.value), one.value);
    if w[0] == COMMA {
      var more := P.ParseMembers(c, P.NextToken(w), d);
      if more.Ok? {
        ConcatSnoc(done, Chars(k.value), one.value, more.value);
      }
    }
  }

  lemma GrownNone(mem: Mem, e: Tree)
    requires Unfilled(mem, e)
    ensures Grown(mem, mem, e, e)
  {
    BareItem(mem, e);
  }

  /** A name has been read, and the offset is on the colon behind it. */
  ghost predicate AtColon(content: bytes, k: Parsed<cstring>, offset: nat) {
    k.Ok? && offset + 1 < |content| && SkipWs(From(content, offset + 1)) == k.rest
  }

  lemma NameFails(content: bytes, i: nat, k: Parsed<cstring>)
    requires i < |content| && Terminated(From(content, i)) && k == P.ParseName(From(content, i))
    ensures var s := Strings.ParseString(From(content, i)); s.Err? ==> k == Err(s.rest)
  {
    hide Strings.ParseString, SkipWs;
  }

  lemma NameEnds(content: bytes, i: nat, j: nat, end: nat, k: Parsed<cstring>)
    requires Terminated(content) && i < |content| && j < |content| && end < |content|
    requires Terminated(From(content, i)) && k == P.ParseName(From(content, i))
    requires var s := Strings.ParseString(From(content, i)); s.Ok? && From(content, j) == s.rest
    requires From(content, end) == SkipWs(From(content, j))
    ensures content[end] != COLON ==> k.Err? && |k.rest| == |content| - end
    ensures content[end] == COLON ==>
              AtColon(content, k, end) && k.value == Strings.ParseString(From(content, i)).value
  {
    hide Strings.ParseString, SkipWs, From, P.NextToken;
    FromFirst(content, j);
    FromFirst(content, end);
    if content[end] == COLON {
      FromNext(content, end);
      NextByte(From(content, end));
    }
  }

  lemma NameKept(was: Mem, mem: Mem, named: Tree, t: Tree)
    requires Filled(was, mem, named, t) && Unfilled(was, named)
    requires ItemAt(was, named.ptr) && was[named.ptr].node.name == named.name
    ensures NameOf(mem, t) == StrAt(was, named.name)
  {
    hide UpToNul;
    BareItem(was, named);
  }

  lemma ObjectTooDeep(c: Codec, content: bytes, i: nat, depth: nat)
    requires Terminated(content) && i < |content| && content[i] == LBRACE && depth >= NESTING_LIMIT
    ensures P.ParseObject(c, From(content, i), depth) == Err(From(content, i))
  {
  }

  function ObjectOf(r: Parsed<Chain>): Parsed<Json> {
    match r
    case Ok(ch, rest) => Ok(Object(ch), rest)
    case Err(rest) => Err(rest)
  }

  lemma ObjectUnfolds(c: Codec, u: bytes, v: bytes, depth: nat)
    requires Terminated(u) && u[0] == LBRACE && depth < NESTING_LIMIT && v == P.NextToken(u)
    ensures v[0] == RBRACE ==> P.ParseObject(c, u, depth) == ObjectOf(Ok(End, P.Rest(v)))
    ensures v[0] != RBRACE ==> P.ParseObject(c, u, depth) == ObjectOf(P.ParseMembers(c, v, depth + 1))
  {
    hide P.NextToken, P.Rest, P.ParseMembers, Terminated;
  }

  /** After the brace and whitespace: the empty object, or the list the loop is to read from one byte back on. */
  lemma ObjectCases(c: Codec, content: bytes, i: nat, j: nat, depth: nat) returns (list: Parsed<Chain>)
    requires Terminated(content) && i < j < |content| && content[i] == LBRACE && depth < NESTING_LIMIT
    requires From(content, j) == SkipWs(From(content, i + 1))
    ensures Terminated(From(content, i)) && From(content, i)[0] == LBRACE
    ensures content[j] == RBRACE ==> j + 1 < |content| && list == Ok(End, From(content, j + 1))
    ensures content[j] != RBRACE ==> Members(c, content, list, End, j - 1, depth + 1, true)
    ensures P.ParseObject(c, From(content, i), depth) == ObjectOf(list)
  {
    hide SkipWs, P.ParseMembers, P.NextToken, P.Rest, P.ParseObject, From, Members, Terminated, ObjectOf;
    TokenFrom(content, i, j);
    ObjectUnfolds(c, From(content, i), From(content, j), depth);
    if content[j] == RBRACE {
      list := Ok(End, From(content, j + 1));
    } else {
      MembersStart(c, content, j, depth + 1);
      list := P.ParseMembers(c, From(content, j), depth + 1);
    }
  }

  lemma ListFailed(content: bytes, r: Parsed<Chain>, base: Mem, head: Ptr, ts: seq<Tree>, offset: nat, starved: bool)
    requires offset <= |content| && (starved || (r.Err? && offset == |content| - |r.rest|))
    ensures ListOutcome(content, r, base, base, head, ts, false, offset, starved)
  {
  }

  /** The loop ends with the closing bracket, or fails on what is there instead. */
  lemma ListEnd(content: bytes, r: Parsed<Chain>, base: Mem, mem: Mem, head: Ptr, ts: seq<Tree>, ok: bool,
                offset: nat, starved: bool)
    requires ok ==> offset + 1 < |content| && r == Ok(ChainOf(mem, ts), From(content, offset + 1))
                    && Built(base, mem, ts) && head == Head(Ptrs(ts))
    requires !ok ==> mem == base && offset < |content| && r == Err(From(content, offset))
    ensures ListOutcome(content, r, base, mem, head, ts, ok, offset, starved)
  {
  }

  /** A failure of the list is a failure of the whole array or object. */
  lemma ListOutcomeFailed(content: bytes, r: Parsed<Chain>, whole: Parsed<Json>, base: Mem, mem: Mem, head: Ptr,
                          ts: seq<Tree>,
                          e: Tree, offset: nat, starved: bool)
    requires ListOutcome(content, r, base, mem, head, ts, false, offset, starved)
    requires whole == ArrayOf(r) || whole == ObjectOf(r)
    ensures mem == base && offset <= |content| && Outcome(content, whole, base, mem, e, e, false, offset, starved)
  {
  }

  lemma ListOutcomeOk(content: bytes, r: Parsed<Chain>, base: Mem, mem: Mem, head: Ptr, ts: seq<Tree>, offset: nat,
                      starved: bool)
    requires ListOutcome(content, r, base, mem, head, ts, true, offset, starved)
    ensures offset + 1 < |content| && r == Ok(ChainOf(mem, ts), From(content, offset + 1))
    ensures Built(base, mem, ts) && head == Head(Ptrs(ts))
  {
  }

  lemma OutcomeFailed(content: bytes, r: Parsed<Json>, was: Mem, e: Tree, offset: nat, starved: bool)
    requires offset <= |content| && (starved || (r.Err? && offset == |content| - |r.rest|))
    ensures Outcome(content, r, was, was, e, e, false, offset, starved)
  {
  }

  // ----- cJSON_ParseWithOpts -----

  lemma ParseCases(c: Codec, u: bytes, requireEnd: bool)
    requires Terminated(u)
    ensures Terminated(SkipWs(P.SkipBom(u)))
    ensures var one := P.ParseValue(c, SkipWs(P.SkipBom(u)), 0);
            && (one.Err? ==> P.Parse(c, u, requireEnd) == Err(one.rest))
            && (one.Ok? && !requireEnd ==> P.Parse(c, u, requireEnd) == Ok(one.value, one.rest))
            && (one.Ok? && requireEnd ==>
                  var w := SkipWs(one.rest);
                  P.Parse(c, u, requireEnd) == if w[0] == 0 then Ok(one.value, w) else Err(w))
  {
    hide P.ParseValue, SkipWs;
    SkipWsTerminated(P.SkipBom(u));
  }

  /** The `strlen + 1` bytes of a string. */
  function WithNul(s: cstring): (u: bytes)
    ensures |u| == |s| + 1
  {
    s + [0]
  }

  lemma WithNulTerminated(s: cstring)
    ensures Terminated(WithNul(s))
  {
  }
}
