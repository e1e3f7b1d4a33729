/**
 * The parser of cJSON.c as it runs: an offset and a depth that move, items and strings that are allocated,
 * and lists that are freed when something fails.
 */
module HeapParser {
  import opened CText
  import opened Doubles
  import opened Strings
  import opened StringProofs
  import opened Json
  import opened CHeap
  import opened ItemValues
  import opened Ownership
  import opened BuiltLists
  import opened StringDecoder
  import opened ParserSteps

  class ParseBuffer {
    const content: bytes
    const codec: Codec
    const heap: Heap
    var offset: nat
    var depth: nat

    /** `cJSON_ParseWithOpts` hands the text over with its terminator. */
    constructor (value: bytes, codec: Codec, heap: Heap)
      requires Terminated(value)
      ensures content == value && this.codec == codec && this.heap == heap && offset == 0 && depth == 0
    {
      content, this.codec, this.heap, offset, depth := value, codec, heap, 0, 0;
    }

    /** `buffer_skip_whitespace` */
    method SkipWhitespace()
      requires offset < |content|
      modifies this`offset
      ensures old(offset) <= offset < |content|
      ensures From(content, offset) == SkipWs(old(From(content, offset)))
    {
      hide SkipWs, Skipped;
      ghost var start := offset;
      SkipStart(content, start);
      while offset < |content| && content[offset] <= 32
        invariant start <= offset <= |content| && Skipped(content, start, offset)
        decreases |content| - offset
      {
        SkipOne(content, start, offset);
        offset := offset + 1;
      }
      SkipStops(content, start, offset);
      if offset == |content| {
        offset := offset - 1;
      }
    }

    /** One byte further, and past the whitespace there. */
    method NextToken()
      requires offset + 1 < |content|
      modifies this`offset
      ensures old(offset) < offset < |content|
      ensures From(content, offset) == SkipWs(From(content, old(offset) + 1))
    {
      hide From, SkipWs;
      offset := offset + 1;
      SkipWhitespace();
    }

    /** `skip_utf8_bom` */
    method SkipUtf8Bom()
      requires offset == 0 && Terminated(content)
      modifies this`offset
      ensures offset < |content| && From(content, offset) == P.SkipBom(content)
    {
      if 4 < |content| && content[..3] == P.BOM {
        offset := offset + 3;
      }
    }

    /** `parse_string` */
    method ParseString(item: Ptr, ghost e: Tree) returns (ok: bool)
      requires offset < |content| && Terminated(content)
      requires e.ptr == item && Unfilled(heap.mem, e)
      modifies `offset, heap
      ensures var r := Strings.ParseString(old(From(content, offset)));
              if ok then
                && r.Ok? && offset < |content| && From(content, offset) == r.rest && heap.starved == old(heap.starved)
                && ItemAt(heap.mem, item) && heap.mem[item].node.kind == KString
                && var p := heap.mem[item].node.valuestring;
                && p != NULL && StrAt(heap.mem, p) == Chars(r.value)
                && Filled(old(heap.mem), heap.mem, e, e.(value := p))
              else
                && heap.mem == old(heap.mem) && offset <= |content|
                && (heap.starved || (r.Err? && offset == |content| - |r.rest|))
    {
      hide Owned, Plain, Filled, Unfilled, From, ScanQuote, Begun, DecodeFrom;
      hide Output, Strings.ParseString, UpToNul, Terminated;
      ghost var was := heap.mem;
      BareItem(heap.mem, e);
      if content[offset] != QUOTE {
        LiteralMissing(content, offset);
        offset := offset + 1;
        return false;
      }
      var closed, inputEnd, skippedBytes := ScanLiteral(content, offset + 1);
      if !closed {
        LiteralMissing(content, offset);
        offset := offset + 1;
        return false;
      }
      LiteralResult(content, offset, inputEnd);
      AllocationFits(content, offset + 1, inputEnd, skippedBytes);
      var allocationLength := inputEnd - offset - skippedBytes;
      var output := AllocateText(allocationLength + 1);
      if output == NULL {
        offset := offset + 1;
        return false;
      }
      NotLast(content, inputEnd);
      ok := FillString(item, e, was, inputEnd, output);
    }

    /** A block with whatever bytes are in it. */
    method AllocateText(length: nat) returns (p: Ptr)
      modifies heap
      ensures p == NULL ==> heap.mem == old(heap.mem) && heap.starved
      ensures p != NULL ==> p !in old(heap.mem) && p in heap.mem && heap.mem[p].Text? && |heap.mem[p].data| == length
      ensures p != NULL ==> heap.mem == old(heap.mem)[p := heap.mem[p]] && heap.starved == old(heap.starved)
    {
      var a := new uchar[length];
      p := heap.Allocate(Text(a[..]));
    }

    /** The second half of `parse_string`: decode into the block, then terminate it or free it. */
    method FillString(item: Ptr, ghost e: Tree, ghost was: Mem, inputEnd: nat, output: Ptr) returns (ok: bool)
      requires offset < inputEnd < |content| && content[inputEnd] == QUOTE
      requires e.ptr == item && Unfilled(was, e)
      requires output != NULL && output !in was && output in heap.mem && heap.mem[output].Text?
      requires heap.mem == was[output := heap.mem[output]]
      requires |DecodeFrom(content, offset + 1, inputEnd).out| + 1 <= |heap.mem[output].data|
      modifies `offset, heap
      ensures heap.starved == old(heap.starved)
      ensures var d := DecodeFrom(content, old(offset) + 1, inputEnd);
              if ok then
                && d.ok && offset == inputEnd + 1
                && ItemAt(heap.mem, item) && heap.mem[item].node.kind == KString
                && heap.mem[item].node.valuestring == output && StrAt(heap.mem, output) == Chars(UpToNul(d.out))
                && Filled(was, heap.mem, e, e.(value := output))
              else
                !d.ok && heap.mem == was && offset == |content| - |d.rest|
    {
      hide Owned, Plain, Filled, DecodeFrom, UpToNul, Output, Overwrite;
      ghost var d := DecodeFrom(content, offset + 1, inputEnd);
      ghost var was1 := heap.mem;
      var inputPointer, outputPointer;
      ok, inputPointer, outputPointer := DecodeLiteral(content, offset + 1, inputEnd, heap, output);
      OutputBlock(was1, heap.mem, output, d.out);
      if !ok {
        Discarded(was, heap.mem, output, heap.mem[output]);
        heap.Free(output);
        offset := inputPointer;
        return;
      }
      heap.Put(output, outputPointer, 0);
      ghost var data := heap.mem[output].data;
      TerminatedBlock(was1[output].data, d.out);
      assert heap.mem == was[output := Text(data)];
      BareItem(was, e);
      assert data[outputPointer] == 0;
      FillText(was, e, output, data, KString);
      heap.Update(item, heap.mem[item].node.(kind := KString, valuestring := output));
      offset := inputEnd;
      offset := offset + 1;
    }

    /** The copying loop of `parse_number`: the bytes go to a buffer of 64 for `strtod`. */
    method CopyNumber() returns (number: bytes)
      requires offset < |content|
      ensures number == content[offset..][..P.NumberRun(content[offset..], NUMBER_BUFFER)]
    {
      hide P.NumberRun, NumberByte;
      ghost var u := content[offset..];
      var numberCString := new uchar[64];
      var i := 0;
      while i < 63 && offset + i < |content| && NumberByte(content[offset + i])
        modifies numberCString
        invariant 0 <= i <= 63 && offset + i <= |content|
        invariant forall k :: 0 <= k < i ==> numberCString[k] == u[k]
        invariant P.NumberRun(u, NUMBER_BUFFER) == i + P.NumberRun(u[i..], NUMBER_BUFFER - i)
      {
        RunOne(u, i);
        numberCString[i] := content[offset + i];
        i := i + 1;
      }
      RunNone(u, i);
      number := numberCString[..i];
    }

    /** `parse_number` */
    method ParseNumber(item: Ptr, ghost e: Tree) returns (ok: bool)
      requires offset < |content| && Terminated(content)
      requires e.ptr == item && Unfilled(heap.mem, e)
      modifies `offset, heap`mem
      ensures Outcome(content, P.ParseNumber(codec, old(From(content, offset))), old(heap.mem), heap.mem, e, e,
                      ok, offset, heap.starved)
    {
      hide Owned, Plain, Filled, P.NumberRun, P.ParseNumber;
      var number := CopyNumber();
      NumberResult(content, codec, offset);
      var scan := codec.strtod(number);
      // strtod sees the copied bytes only
      if scan.used == 0 || scan.used > |number| {
        return false;
      }
      BareItem(heap.mem, e);
      var n := heap.mem[item].node.(kind := KNumber, number := scan.value, valueint := Saturated(scan.value));
      FillScalar(heap.mem, e, n);
      heap.Update(item, n);
      offset := offset + scan.used;
      ok := true;
    }

    /** The end of a `null`, `true` or `false`: no block is needed. */
    method SetLiteral(item: Ptr, ghost e: Tree, kind: Kind, length: nat)
      requires offset + length <= |content| && (kind == KNull || kind == KFalse || kind == KTrue)
      requires e.ptr == item && Unfilled(heap.mem, e)
      modifies `offset, heap`mem
      ensures offset == old(offset) + length && Filled(old(heap.mem), heap.mem, e, e)
      ensures ItemAt(heap.mem, item) && heap.mem[item].node.kind == kind
    {
      hide Owned, Plain, Filled;
      BareItem(heap.mem, e);
      var n := heap.mem[item].node.(kind := kind, valueint := if kind.KTrue? then 1 else 0);
      FillScalar(heap.mem, e, n);
      heap.Update(item, n);
      offset := offset + length;
    }

    ghost predicate Ready()
      reads this, heap
    {
      Terminated(content) && offset < |content| && depth <= NESTING_LIMIT && NULL !in heap.mem
    }

    /** The `strncmp` tests of `parse_value`. */
    method ParseLiteral(item: Ptr, ghost e: Tree) returns (ok: bool)
      requires Ready() && e.ptr == item && Unfilled(heap.mem, e)
      modifies `offset, heap`mem
      ensures Outcome(content, P.ParseLiteral(old(From(content, offset))), old(heap.mem), heap.mem, e, e,
                      ok, offset, false)
      ensures !ok ==> offset == old(offset)
    {
      hide Owned, Plain, Filled, ValueOf, Outcome, From, Terminated, P.ParseLiteral;
      ghost var u, was := From(content, offset), heap.mem;
      ok := true;
      if offset + 4 <= |content| && content[offset..offset + 4] == NULL_TEXT {
        LiteralRead(content, offset, NULL_TEXT, Null);
        SetLiteral(item, e, KNull, 4);
        LiteralDone(content, P.ParseLiteral(u), Null, was, heap.mem, e, offset);
      } else if offset + 5 <= |content| && content[offset..offset + 5] == FALSE_TEXT {
        LiteralRead(content, offset, FALSE_TEXT, False);
        SetLiteral(item, e, KFalse, 5);
        LiteralDone(content, P.ParseLiteral(u), False, was, heap.mem, e, offset);
      } else if offset + 4 <= |content| && content[offset..offset + 4] == TRUE_TEXT {
        LiteralRead(content, offset, TRUE_TEXT, True);
        SetLiteral(item, e, KTrue, 4);
        LiteralDone(content, P.ParseLiteral(u), True, was, heap.mem, e, offset);
      } else {
        NoLiteral(content, offset);
        NoOutcome(content, u, was, e, offset, false);
        ok := false;
      }
    }

    /** `parse_string` for a value. */
    method ParseText(item: Ptr, ghost e: Tree) returns (ok: bool, ghost t: Tree)
      requires Ready() && e.ptr == item && Unfilled(heap.mem, e)
      modifies `offset, heap
      ensures Outcome(content, P.ParseText(old(From(content, offset))), old(heap.mem), heap.mem, e, t,
                      ok, offset, heap.starved)
      ensures ok ==> heap.starved == old(heap.starved)
    {
      hide Owned, Plain, Filled, ValueOf, StrAt, P.ParseText;
      t := e;
      TextResult(content, offset);
      ok := ParseString(item, e);
      if ok {
        t := e.(value := heap.mem[item].node.valuestring);
        TextValue(heap.mem, t);
      }
    }

    /** `parse_value` */
    method ParseValue(item: Ptr, ghost e: Tree) returns (ok: bool, ghost t: Tree)
      requires Ready() && e.ptr == item && Unfilled(heap.mem, e)
      modifies this, heap
      ensures Outcome(content, P.ParseValue(codec, old(From(content, offset)), old(depth)),
                      old(heap.mem), heap.mem, e, t, ok, offset, heap.starved)
      ensures depth <= NESTING_LIMIT && (ok ==> depth == old(depth) && heap.starved == old(heap.starved))
      decreases |content| - offset, 5
    {
      hide Owned, Plain, Outcome, From, P.ParseLiteral, P.ParseText, P.ParseNumber, P.ParseArray, P.ParseObject;
      ghost var u, was := From(content, offset), heap.mem;
      FromFirst(content, offset);
      t := e;
      ok := ParseLiteral(item, e);
      LiteralOutcome(content, u, was, heap.mem, e, ok, offset, heap.starved);
      if ok {
        return;
      }
      if content[offset] == QUOTE {
        ok, t := ParseText(item, e);
      } else if content[offset] == MINUS || 48 <= content[offset] <= 57 {
        ok := ParseNumber(item, e);
      } else if content[offset] == LBRACKET {
        ok, t := ParseArray(item, e);
      } else if content[offset] == LBRACE {
        ok, t := ParseObject(item, e);
      } else {
        NoOutcome(content, u, was, e, offset, heap.starved);
      }
    }

    /** The end of `parse_array` and `parse_object`: the list becomes the children of the item. */
    method Adopted(item: Ptr, ghost e: Tree, ghost was: Mem, head: Ptr, ghost ts: seq<Tree>, kind: Kind)
      requires Built(was, heap.mem, ts) && head == Head(Ptrs(ts)) && (kind == KArray || kind == KObject)
      requires e.ptr == item && Unfilled(was, e)
      modifies heap`mem
      ensures Filled(was, heap.mem, e, e.(kids := ts)) && ChainOf(heap.mem, ts) == old(ChainOf(heap.mem, ts))
      ensures ItemAt(heap.mem, item) && heap.mem[item].node.kind == kind
    {
      hide Owned, Plain, Filled, ChainOf, Foot, FootAll, Chained, OwnedAll, PlainAll;
      BareItem(was, e);
      Adopt(was, heap.mem, ts, e, kind);
      heap.Update(item, heap.mem[item].node.(kind := kind, child := head));
    }

    /** `success:` in both of them. */
    method Close(item: Ptr, ghost e: Tree, ghost was: Mem, head: Ptr, ghost ts: seq<Tree>, kind: Kind,
                 ghost list: Parsed<Chain>, ghost r: Parsed<Json>)
      requires Built(was, heap.mem, ts) && head == Head(Ptrs(ts))
      requires e.ptr == item && Unfilled(was, e) && depth > 0
      requires offset + 1 < |content| && list == Ok(ChainOf(heap.mem, ts), From(content, offset + 1))
      requires (r == ArrayOf(list) && kind == KArray) || (r == ObjectOf(list) && kind == KObject)
      modifies `offset, `depth, heap`mem
      ensures depth == old(depth) - 1
      ensures Outcome(content, r, was, heap.mem, e, e.(kids := ts), true, offset, heap.starved)
    {
      hide Owned, Plain, Filled, ValueOf, ChainOf, Built, From, Outcome, ArrayOf, ObjectOf;
      depth := depth - 1;
      Adopted(item, e, was, head, ts, kind);
      offset := offset + 1;
      ListDone(content, list, r, was, heap.mem, e, e.(kids := ts), offset, heap.starved);
    }

    /** The failure exit of `parse_array` and `parse_object`. */
    method Discard(head: Ptr, ghost base: Mem, ghost ts: seq<Tree>)
      requires Built(base, heap.mem, ts) && head == Head(Ptrs(ts))
      modifies heap`mem
      ensures heap.mem == base
    {
      hide Built, FootAll, Deletable;
      ListDeletable(base, heap.mem, ts);
      BuiltUndone(base, heap.mem, ts);
      heap.Delete(head, ts);
    }

    /** Allocating the next item and attaching it to the list. */
    method AppendItem(head: Ptr, current: Ptr, ghost base: Mem, ghost ts: seq<Tree>) returns (item: Ptr, newHead: Ptr)
      requires Built(base, heap.mem, ts) && head == Head(Ptrs(ts)) && current == Last(ts).ptr
      modifies heap
      ensures item == NULL ==> heap.mem == old(heap.mem) && heap.starved && newHead == head
      ensures item != NULL ==>
              && heap.starved == old(heap.starved)
              && Built(base, heap.mem, ts + [Bare(item, NULL)]) && newHead == Head(Ptrs(ts + [Bare(item, NULL)]))
              && ChainOf(heap.mem, ts) == old(ChainOf(heap.mem, ts))
              && ItemAt(heap.mem, item) && heap.mem[item].node.name == NULL && heap.mem[item].node.valueint == 0
    {
      hide Built, ChainOf, Owned, Plain, Foot, FootAll;
      newHead := head;
      ghost var was := heap.mem;
      ListEnds(base, heap.mem, ts);
      item := heap.NewItem();
      if item == NULL {
        return;
      }
      if head == NULL {
        newHead := item;
      } else {
        heap.Update(current, heap.mem[current].node.(next := item));
        heap.Update(item, heap.mem[item].node.(prev := current));
      }
      AppendBlank(base, was, ts, item);
      assert heap.mem == WithNew(was, current, item);
      ListHead(ts, Bare(item, NULL));
    }

    /** `parse_array` */
    method ParseArray(item: Ptr, ghost e: Tree) returns (ok: bool, ghost t: Tree)
      requires Ready() && e.ptr == item && Unfilled(heap.mem, e)
      requires content[offset] == LBRACKET
      modifies this, heap
      ensures Outcome(content, P.ParseArray(codec, old(From(content, offset)), old(depth)),
                      old(heap.mem), heap.mem, e, t, ok, offset, heap.starved)
      ensures depth <= NESTING_LIMIT && (ok ==> depth == old(depth) && heap.starved == old(heap.starved))
      decreases |content| - offset, 4
    {
      hide Owned, Plain, Filled, ValueOf, ChainOf, Built, ListOutcome, Elements, ArrayOf;
      hide From, SkipWs, Terminated, Outcome, P.ParseArray;
      ghost var i, d, was := offset, depth, heap.mem;
      FromFirst(content, offset);
      ghost var r := P.ParseArray(codec, From(content, offset), depth);
      t := e;
      if depth >= NESTING_LIMIT {
        ArrayTooDeep(codec, content, offset, depth);
        OutcomeFailed(content, r, was, e, offset, heap.starved);
        return false, e;
      }
      FromNext(content, offset);
      depth := depth + 1;
      NextToken();
      // the skip never leaves the offset at the end, so cannot_access_at_index is never true here
      ghost var list := ArrayCases(codec, content, i, offset, d);
      ok, t := ParseArrayRest(item, e, was, list, r);
    }

    /** `parse_array` behind the opening and the whitespace after it. */
    method ParseArrayRest(item: Ptr, ghost e: Tree, ghost was: Mem, ghost list: Parsed<Chain>, ghost r: Parsed<Json>)
      returns (ok: bool, ghost t: Tree)
      requires Ready() && heap.mem == was && depth > 0 && offset > 0
      requires e.ptr == item && Unfilled(was, e)
      requires content[offset] == RBRACKET ==> offset + 1 < |content| && list == Ok(End, From(content, offset + 1))
      requires content[offset] != RBRACKET ==> Elements(codec, content, list, End, offset - 1, depth, true)
      requires r == ArrayOf(list)
      modifies this, heap
      ensures Outcome(content, r, was, heap.mem, e, t, ok, offset, heap.starved)
      ensures depth <= NESTING_LIMIT && (ok ==> depth == old(depth) - 1 && heap.starved == old(heap.starved))
      decreases |content| - offset + 1, 3
    {
      hide Owned, Plain, ValueOf, ChainOf, Built, ListOutcome, Elements, ArrayOf, From, Terminated, Outcome;
      var head := NULL;
      ghost var ts: seq<Tree> := [];
      BuiltNothing(was);
      NoLinks(was);
      t := e;
      if content[offset] != RBRACKET {
        // every round of the loop begins by moving past a bracket or a comma
        offset := offset - 1;
        ok, head, ts := ParseElements(was, list);
        if !ok {
          ListOutcomeFailed(content, list, r, was, heap.mem, head, ts, e, offset, heap.starved);
          return;
        }
        ListOutcomeOk(content, list, was, heap.mem, head, ts, offset, heap.starved);
      }
      t := e.(kids := ts);
      Close(item, e, was, head, ts, KArray, list, r);
      ok := true;
    }

    /** The loop of `parse_array`; when it fails the list is deleted. */
    method ParseElements(ghost base: Mem, ghost r: Parsed<Chain>) returns (ok: bool, head: Ptr, ghost ts: seq<Tree>)
      requires Ready() && heap.mem == base && offset + 1 < |content|
      requires Elements(codec, content, r, End, offset, depth, true)
      modifies this, heap
      ensures ListOutcome(content, r, base, heap.mem, head, ts, ok, offset, heap.starved)
      ensures depth <= NESTING_LIMIT && (ok ==> depth == old(depth) && heap.starved == old(heap.starved))
      decreases |content| - offset, 2
    {
      hide Built, ChainOf, Elements, ListOutcome, From, Terminated;
      ghost var d, start := depth, offset;
      head, ts := NULL, [];
      var current := NULL;
      BuiltNothing(base);
      NoLinks(heap.mem);
      var more := true;
      while more
        invariant Ready() && start <= offset && depth == d && heap.starved == old(heap.starved)
        invariant Built(base, heap.mem, ts) && head == Head(Ptrs(ts)) && current == Last(ts).ptr
        invariant Elements(codec, content, r, ChainOf(heap.mem, ts), offset, d, more)
        decreases |content| - offset
      {
        ok, head, current, ts := ParseElement(head, current, base, ts, r);
        if !ok {
          return;
        }
        more := content[offset] == COMMA;
      }
      ElementsEnd(codec, content, r, ChainOf(heap.mem, ts), offset, d);
      ok := content[offset] == RBRACKET;
      if !ok {
        Discard(head, base, ts);
      }
      ListEnd(content, r, base, heap.mem, head, ts, ok, offset, heap.starved);
    }

    /** The value after the byte at the offset, and the whitespace around it. */
    method ParseNext(item: Ptr, ghost e: Tree) returns (ok: bool, ghost t: Tree)
      requires Ready() && offset + 1 < |content| && e.ptr == item && Unfilled(heap.mem, e)
      modifies this, heap
      ensures Terminated(SkipWs(old(From(content, offset + 1))))
      ensures depth <= NESTING_LIMIT
      ensures var one := P.ParseValue(codec, SkipWs(old(From(content, offset + 1))), old(depth));
              if ok then
                && one.Ok? && old(offset) < offset < |content| && From(content, offset) == SkipWs(one.rest)
                && depth == old(depth) && heap.starved == old(heap.starved)
                && Filled(old(heap.mem), heap.mem, e, t) && ValueOf(heap.mem, t) == one.value
              else
                && heap.mem == old(heap.mem) && offset <= |content|
                && (heap.starved || (one.Err? && offset == |content| - |one.rest|))
      decreases |content| - offset, 0
    {
      hide Filled, ValueOf, Owned, Plain, From, SkipWs, P.ParseValue, Terminated;
      FromFirst(content, offset + 1);
      SkipWsTerminated(From(content, offset + 1));
      NextToken();
      ok, t := ParseValue(item, e);
      if ok {
        SkipWhitespace();
      }
    }

    /** One round of the loop of `parse_array`; a failure discards the list. */
    method ParseElement(head: Ptr, current: Ptr, ghost base: Mem, ghost ts: seq<Tree>, ghost r: Parsed<Chain>)
      returns (ok: bool, newHead: Ptr, newCurrent: Ptr, ghost ts': seq<Tree>)
      requires Ready() && Built(base, heap.mem, ts) && head == Head(Ptrs(ts)) && current == Last(ts).ptr
      requires Elements(codec, content, r, ChainOf(heap.mem, ts), offset, depth, true)
      modifies this, heap
      ensures depth <= NESTING_LIMIT
      ensures ok ==>
                && Ready() && old(offset) < offset && depth == old(depth) && heap.starved == old(heap.starved)
                && Built(base, heap.mem, ts') && newHead == Head(Ptrs(ts')) && newCurrent == Last(ts').ptr
                && Elements(codec, content, r, ChainOf(heap.mem, ts'), offset, depth, content[offset] == COMMA)
      ensures !ok ==> ListOutcome(content, r, base, heap.mem, newHead, ts', false, offset, heap.starved)
      decreases |content| - offset, 1, 1
    {
      hide Unfilled, Built, ChainOf, Elements, ListOutcome, Filled, Grown, NameOf, ValueOf, Owned;
      hide Plain, From, SkipWs, P.ParseValue, Terminated;
      ghost var done := ChainOf(heap.mem, ts);
      ts' := ts;
      ElementsNow(codec, content, r, done, offset, depth);
      newCurrent, newHead := AppendItem(head, current, base, ts);
      if newCurrent == NULL {
        Discard(newHead, base, ts);
        ListFailed(content, r, base, newHead, ts, offset, heap.starved);
        return false, newHead, newCurrent, ts;
      }
      ListBlank(base, heap.mem, ts, newCurrent);
      ok, ts' := ParseElementValue(newHead, newCurrent, base, ts, r, done);
    }

    /** The second half of a round: the value, and the list with it. */
    method ParseElementValue(head: Ptr, current: Ptr, ghost base: Mem, ghost ts: seq<Tree>, ghost r: Parsed<Chain>,
                             ghost done: Chain)
      returns (ok: bool, ghost ts': seq<Tree>)
      requires Ready() && Built(base, heap.mem, ts + [Bare(current, NULL)]) && ChainOf(heap.mem, ts) == done
      requires head == Head(Ptrs(ts + [Bare(current, NULL)])) && Unfilled(heap.mem, Bare(current, NULL))
      requires ItemAt(heap.mem, current) && heap.mem[current].node.name == NULL
      requires offset + 1 < |content| && Elements(codec, content, r, done, offset, depth, true)
      modifies this, heap
      ensures depth <= NESTING_LIMIT
      ensures ok ==>
                && Ready() && old(offset) < offset && depth == old(depth) && heap.starved == old(heap.starved)
                && Built(base, heap.mem, ts') && head == Head(Ptrs(ts')) && current == Last(ts').ptr
                && Elements(codec, content, r, ChainOf(heap.mem, ts'), offset, depth, content[offset] == COMMA)
      ensures !ok ==> ListOutcome(content, r, base, heap.mem, head, ts', false, offset, heap.starved)
      decreases |content| - offset, 1, 0
    {
      hide Unfilled, Built, ChainOf, Elements, ListOutcome, Filled, Grown, NameOf, ValueOf, Owned;
      hide Plain, From, SkipWs, P.ParseValue, Terminated;
      ghost var i, d, mem1, e := offset, depth, heap.mem, Bare(current, NULL);
      ts' := ts + [e];
      ElementsFail(codec, content, r, done, i, d);
      ghost var t;
      ok, t := ParseNext(current, e);
      if !ok {
        Discard(head, base, ts');
        ListFailed(content, r, base, head, ts', offset, heap.starved);
        return;
      }
      FilledParts(mem1, heap.mem, e, t);
      FillNew(base, mem1, heap.mem, ts, e, t);
      ts' := ts + [t];
      ListReady(base, heap.mem, ts');
      Unnamed(heap.mem, t);
      ElementsNext(codec, content, r, done, i, d, offset);
    }

    /** `parse_object` */
    method ParseObject(item: Ptr, ghost e: Tree) returns (ok: bool, ghost t: Tree)
      requires Ready() && e.ptr == item && Unfilled(heap.mem, e)
      requires content[offset] == LBRACE
      modifies this, heap
      ensures Outcome(content, P.ParseObject(codec, old(From(content, offset)), old(depth)),
                      old(heap.mem), heap.mem, e, t, ok, offset, heap.starved)
      ensures depth <= NESTING_LIMIT && (ok ==> depth == old(depth) && heap.starved == old(heap.starved))
      decreases |content| - offset, 4
    {
      hide Owned, Plain, Filled, ValueOf, ChainOf, Built, ListOutcome, Members, ObjectOf;
      hide From, SkipWs, Terminated, Outcome, P.ParseObject;
      ghost var i, d, was := offset, depth, heap.mem;
      FromFirst(content, offset);
      ghost var r := P.ParseObject(codec, From(content, offset), depth);
      t := e;
      if depth >= NESTING_LIMIT {
        ObjectTooDeep(codec, content, offset, depth);
        OutcomeFailed(content, r, was, e, offset, heap.starved);
        return false, e;
      }
      FromNext(content, offset);
      depth := depth + 1;
      NextToken();
      // the skip never leaves the offset at the end, so cannot_access_at_index is never true here
      ghost var list := ObjectCases(codec, content, i, offset, d);
      ok, t := ParseObjectRest(item, e, was, list, r);
    }

    /** `parse_object` behind the opening and the whitespace after it. */
    method ParseObjectRest(item: Ptr, ghost e: Tree, ghost was: Mem, ghost list: Parsed<Chain>, ghost r: Parsed<Json>)
      returns (ok: bool, ghost t: Tree)
      requires Ready() && heap.mem == was && depth > 0 && offset > 0
      requires e.ptr == item && Unfilled(was, e)
      requires content[offset] == RBRACE ==> offset + 1 < |content| && list == Ok(End, From(content, offset + 1))
      requires content[offset] != RBRACE ==> Members(codec, content, list, End, offset - 1, depth, true)
      requires r == ObjectOf(list)
      modifies this, heap
      ensures Outcome(content, r, was, heap.mem, e, t, ok, offset, heap.starved)
      ensures depth <= NESTING_LIMIT && (ok ==> depth == old(depth) - 1 && heap.starved == old(heap.starved))
      decreases |content| - offset + 1, 3
    {
      hide Owned, Plain, ValueOf, ChainOf, Built, ListOutcome, Members, ObjectOf, From, Terminated, Outcome;
      var head := NULL;
      ghost var ts: seq<Tree> := [];
      BuiltNothing(was);
      NoLinks(was);
      t := e;
      if content[offset] != RBRACE {
        // every round of the loop begins by moving past a brace or a comma
        offset := offset - 1;
        ok, head, ts := ParseMembers(was, list);
        if !ok {
          ListOutcomeFailed(content, list, r, was, heap.mem, head, ts, e, offset, heap.starved);
          return;
        }
        ListOutcomeOk(content, list, was, heap.mem, head, ts, offset, heap.starved);
      }
      t := e.(kids := ts);
      Close(item, e, was, head, ts, KObject, list, r);
      ok := true;
    }

    /** The loop of `parse_object`; when it fails the list is deleted. */
    method ParseMembers(ghost base: Mem, ghost r: Parsed<Chain>) returns (ok: bool, head: Ptr, ghost ts: seq<Tree>)
      requires Ready() && heap.mem == base && offset + 1 < |content|
      requires Members(codec, content, r, End, offset, depth, true)
      modifies this, heap
      ensures ListOutcome(content, r, base, heap.mem, head, ts, ok, offset, heap.starved)
      ensures depth <= NESTING_LIMIT && (ok ==> depth == old(depth) && heap.starved == old(heap.starved))
      decreases |content| - offset, 2
    {
      hide Built, ChainOf, Members, ListOutcome, From, Terminated;
      ghost var d, start := depth, offset;
      head, ts := NULL, [];
      var current := NULL;
      BuiltNothing(base);
      NoLinks(heap.mem);
      var more := true;
      while more
        invariant Ready() && start <= offset && depth == d && heap.starved == old(heap.starved)
        invariant Built(base, heap.mem, ts) && head == Head(Ptrs(ts)) && current == Last(ts).ptr
        invariant Members(codec, content, r, ChainOf(heap.mem, ts), offset, d, more)
        decreases |content| - offset
      {
        ok, head, current, ts := ParseMember(head, current, base, ts, r);
        if !ok {
          return;
        }
        more := content[offset] == COMMA;
      }
      MembersEnd(codec, content, r, ChainOf(heap.mem, ts), offset, d);
      ok := content[offset] == RBRACE;
      if !ok {
        Discard(head, base, ts);
      }
      ListEnd(content, r, base, heap.mem, head, ts, ok, offset, heap.starved);
    }

    /** The name of a member up to the colon; the name becomes the item's even if the colon is missing. */
    method ParseKey(item: Ptr, ghost e: Tree, ghost k: Parsed<cstring>) returns (ok: bool, ghost named: Tree)
      requires Ready() && offset + 1 < |content|
      requires e.ptr == item && e.name == NULL && Unfilled(heap.mem, e)
      requires Terminated(SkipWs(From(content, offset + 1))) && k == P.ParseName(SkipWs(From(content, offset + 1)))
      modifies `offset, heap
      ensures named.ptr == item && Unfilled(heap.mem, named) && Grown(old(heap.mem), heap.mem, e, named)
      ensures ok ==>
                && old(offset) < offset && AtColon(content, k, offset)
                && ItemAt(heap.mem, item) && heap.mem[item].node.name == named.name
                && StrAt(heap.mem, named.name) == Chars(k.value) && heap.starved == old(heap.starved)
      ensures !ok ==> offset <= |content| && (heap.starved || (k.Err? && offset == |content| - |k.rest|))
    {
      hide Filled, Grown, Owned, Plain, StrAt, From, SkipWs, Strings.ParseString, P.ParseName, Terminated, AtColon;
      named := e;
      NextToken();
      ghost var was, i := heap.mem, offset;
      GrownNone(was, e);
      NameFails(content, i, k);
      ok := ParseString(item, e);
      if !ok {
        return;
      }
      ok, named := TakeName(item, e, was, i, k);
    }

    /** What follows a name that has been read: whitespace, the swap, the colon. */
    method TakeName(item: Ptr, ghost e: Tree, ghost was: Mem, ghost i: nat, ghost k: Parsed<cstring>)
      returns (ok: bool, ghost named: Tree)
      requires Terminated(content) && offset < |content| && i < |content|
      requires e.ptr == item && e.name == NULL && Unfilled(was, e)
      requires Terminated(From(content, i)) && k == P.ParseName(From(content, i))
      requires ItemAt(heap.mem, item) && heap.mem[item].node.kind == KString && heap.mem[item].node.valuestring != NULL
      requires Filled(was, heap.mem, e, e.(value := heap.mem[item].node.valuestring))
      requires var s := Strings.ParseString(From(content, i));
               && s.Ok? && From(content, offset) == s.rest
               && StrAt(heap.mem, heap.mem[item].node.valuestring) == Chars(s.value)
      modifies `offset, heap`mem
      ensures named.ptr == item && Unfilled(heap.mem, named) && Grown(was, heap.mem, e, named)
      ensures ok ==>
                && old(offset) <= offset && AtColon(content, k, offset)
                && ItemAt(heap.mem, item) && heap.mem[item].node.name == named.name
                && StrAt(heap.mem, named.name) == Chars(k.value)
      ensures !ok ==> offset <= |content| && k.Err? && offset == |content| - |k.rest|
    {
      hide Filled, Grown, Owned, Plain, StrAt, From, SkipWs, Strings.ParseString, P.ParseName, Terminated, AtColon;
      ghost var j := offset;
      SkipWhitespace();
      // the string just read becomes the name
      named := SwapName(item, e, was);
      ok := content[offset] == COLON;
      NameEnds(content, i, j, offset, k);
    }

    /** The block read as a string value is handed over to be the name. */
    method SwapName(item: Ptr, ghost e: Tree, ghost was: Mem) returns (ghost named: Tree)
      requires e.ptr == item && e.name == NULL && Unfilled(was, e)
      requires ItemAt(heap.mem, item) && heap.mem[item].node.kind == KString && heap.mem[item].node.valuestring != NULL
      requires Filled(was, heap.mem, e, e.(value := heap.mem[item].node.valuestring))
      modifies heap`mem
      ensures ItemAt(heap.mem, item) && heap.mem[item].node.name == named.name == old(heap.mem[item].node.valuestring)
      ensures named.ptr == item && Unfilled(heap.mem, named) && Grown(was, heap.mem, e, named)
      ensures StrAt(heap.mem, named.name) == old(StrAt(heap.mem, heap.mem[item].node.valuestring))
    {
      hide Filled, Grown, Owned, Plain, UpToNul;
      var node := heap.mem[item].node;
      FillName(was, heap.mem, e, e.(value := node.valuestring));
      heap.Update(item, node.(name := node.valuestring, valuestring := NULL));
      named := Bare(item, node.valuestring);
    }

    /** One round of the loop of `parse_object`; a failure discards the list. */
    method ParseMember(head: Ptr, current: Ptr, ghost base: Mem, ghost ts: seq<Tree>, ghost r: Parsed<Chain>)
      returns (ok: bool, newHead: Ptr, newCurrent: Ptr, ghost ts': seq<Tree>)
      requires Ready() && Built(base, heap.mem, ts) && head == Head(Ptrs(ts)) && current == Last(ts).ptr
      requires Members(codec, content, r, ChainOf(heap.mem, ts), offset, depth, true)
      modifies this, heap
      ensures depth <= NESTING_LIMIT
      ensures ok ==>
                && Ready() && old(offset) < offset && depth == old(depth) && heap.starved == old(heap.starved)
                && Built(base, heap.mem, ts') && newHead == Head(Ptrs(ts')) && newCurrent == Last(ts').ptr
                && Members(codec, content, r, ChainOf(heap.mem, ts'), offset, depth, content[offset] == COMMA)
      ensures !ok ==> ListOutcome(content, r, base, heap.mem, newHead, ts', false, offset, heap.starved)
      decreases |content| - offset, 1
    {
      hide Unfilled, Built, ChainOf, Members, ListOutcome, Filled, Grown, NameOf, ValueOf, StrAt, Owned, Plain;
      hide From, SkipWs;
      hide P.ParseValue, P.ParseName, Terminated;
      ghost var done, i, d := ChainOf(heap.mem, ts), offset, depth;
      ts' := ts;
      MembersNow(codec, content, r, done, offset, depth);
      newCurrent, newHead := AppendItem(head, current, base, ts);
      if newCurrent == NULL {
        Discard(newHead, base, ts);
        ListFailed(content, r, base, newHead, ts, offset, heap.starved);
        return false, newHead, newCurrent, ts;
      }
      ghost var e := Bare(newCurrent, NULL);
      ListBlank(base, heap.mem, ts, newCurrent);
      ghost var mem1 := heap.mem;
      ghost var named;
      MembersFail(codec, content, r, done, i, d);
      ok, named := ParseKey(newCurrent, e, P.ParseName(SkipWs(From(content, offset + 1))));
      FillNew(base, mem1, heap.mem, ts, e, named);
      ts' := ts + [named];
      if !ok {
        Discard(newHead, base, ts');
        ListFailed(content, r, base, newHead, ts', offset, heap.starved);
        return;
      }
      ListReady(base, heap.mem, ts');
      ok, newHead, ts' := ParseMemberValue(newHead, newCurrent, base, ts, named, r, done, i);
    }

    /** The second half of a round: the value after the colon. */
    method ParseMemberValue(head: Ptr, current: Ptr, ghost base: Mem, ghost ts: seq<Tree>, ghost named: Tree,
                            ghost r: Parsed<Chain>, ghost done: Chain, ghost i: nat)
      returns (ok: bool, newHead: Ptr, ghost ts': seq<Tree>)
      requires Ready() && Built(base, heap.mem, ts + [named]) && head == Head(Ptrs(ts + [named]))
      requires named.ptr == current && Unfilled(heap.mem, named) && ChainOf(heap.mem, ts) == done
      requires ItemAt(heap.mem, current) && heap.mem[current].node.name == named.name
      requires Members(codec, content, r, done, i, depth, true) && i < offset && i + 1 < |content|
      requires Terminated(SkipWs(From(content, i + 1)))
      requires var k := P.ParseName(SkipWs(From(content, i + 1)));
               AtColon(content, k, offset) && StrAt(heap.mem, named.name) == Chars(k.value)
      modifies this, heap
      ensures depth <= NESTING_LIMIT
      ensures ok ==>
                && Ready() && old(offset) < offset && depth == old(depth) && heap.starved == old(heap.starved)
                && Built(base, heap.mem, ts') && newHead == Head(Ptrs(ts')) && current == Last(ts').ptr
                && Members(codec, content, r, ChainOf(heap.mem, ts'), offset, depth, content[offset] == COMMA)
      ensures !ok ==> ListOutcome(content, r, base, heap.mem, newHead, ts', false, offset, heap.starved)
      decreases |content| - offset, 1
    {
      hide Built, ChainOf, Members, ListOutcome, Filled, Grown, NameOf, ValueOf, StrAt, Owned, Plain, From, SkipWs;
      hide P.ParseValue, P.ParseName, Terminated;
      ghost var d, mem1 := depth, heap.mem;
      newHead, ts' := head, ts + [named];
      ListItem(base, mem1, ts, named);
      MembersFail(codec, content, r, done, i, d);
      ghost var t;
      ok, t := ParseNext(current, named);
      if !ok {
        Discard(newHead, base, ts');
        ListFailed(content, r, base, newHead, ts', offset, heap.starved);
        return;
      }
      FilledParts(mem1, heap.mem, named, t);
      FillNew(base, mem1, heap.mem, ts, named, t);
      ts' := ts + [t];
      ListReady(base, heap.mem, ts');
      NameKept(mem1, heap.mem, named, t);
      MembersNext(codec, content, r, done, i, d, offset);
    }
  }

  /** The middle of `cJSON_ParseWithOpts`: the value, and what may follow it. */
  method ParseRoot(buffer: ParseBuffer, item: Ptr, requireNullTerminated: bool, ghost was: Mem, ghost r: Parsed<Json>)
    returns (ok: bool, ghost t: Tree)
    requires buffer.offset == 0 && buffer.depth == 0 && Terminated(buffer.content) && NULL !in was
    requires item != NULL && item !in was && buffer.heap.mem == was[item := Item(BLANK)]
    requires r == P.Parse(buffer.codec, buffer.content, requireNullTerminated)
    modifies buffer, buffer.heap
    ensures Root(was, buffer.heap.mem, t) && t.ptr == item
    ensures ok ==> r.Ok? && buffer.offset == |buffer.content| - |r.rest| && buffer.offset < |buffer.content|
                   && ValueOf(buffer.heap.mem, t) == r.value && buffer.heap.starved == old(buffer.heap.starved)
    ensures !ok ==> buffer.heap.starved || (r.Err? && buffer.offset == |buffer.content| - |r.rest|)
  {
    hide Filled, ValueOf, Root, Owned, Plain, From, SkipWs, Terminated, P.SkipBom, P.ParseValue, P.Parse;
    ParseCases(buffer.codec, buffer.content, requireNullTerminated);
    RootBlank(was, item);
    ghost var mem1, e := buffer.heap.mem, Bare(item, NULL);
    buffer.SkipUtf8Bom();
    buffer.SkipWhitespace();
    ok, t := buffer.ParseValue(item, e);
    if !ok {
      t := e;
      return;
    }
    RootFilled(was, mem1, buffer.heap.mem, e, t);
    if requireNullTerminated {
      buffer.SkipWhitespace();
      FromFirst(buffer.content, buffer.offset);
      ok := buffer.content[buffer.offset] == 0;
    }
  }

  /** `global_error`: the text of the last parse and the position of its error, NULL and 0 if there was none. */
  class ErrorRecord {
    var json: CStr
    var position: nat

    constructor ()
      ensures json == Missing && position == 0
    {
      json, position := Missing, 0;
    }
  }

  /**
   * `cJSON_ParseWithOpts`. An item comes out exactly when there is a text, the function on the text succeeds
   * and no allocation failed; it then owns all new blocks, and stands for the parsed value. If none comes out
   * the heap is as before, and the error position lies in the text. The error record says so too, and is empty
   * after a success, whatever it was before.
   */
  method ParseWithOpts(value: CStr, codec: Codec, heap: Heap, globalError: ErrorRecord, requireNullTerminated: bool)
    returns (item: Ptr, parseEnd: nat, ghost t: Tree)
    requires NULL !in heap.mem
    modifies heap, globalError
    ensures value.Missing? ==> item == NULL && heap.mem == old(heap.mem)
    ensures globalError.json == (if item == NULL then value else Missing)
    ensures globalError.position == if item == NULL && value.Chars? then parseEnd else 0
    ensures value.Chars? ==>
              && Terminated(WithNul(value.text)) && parseEnd <= |value.text|
              && var r := P.Parse(codec, WithNul(value.text), requireNullTerminated);
              && (item != NULL <==> r.Ok? && !heap.starved)
              && (item != NULL ==> t.ptr == item && Root(old(heap.mem), heap.mem, t) && ValueOf(heap.mem, t) == r.value
                                   && parseEnd + |r.rest| == |value.text| + 1)
              && (item == NULL ==> heap.mem == old(heap.mem))
              && (item == NULL && !heap.starved ==>
                    parseEnd == if |r.rest| > 0 then |value.text| + 1 - |r.rest| else |value.text|)
  {
    hide ValueOf, Root, Terminated, WithNul, P.Parse, FootAll, Deletable;
    heap.starved := false;
    globalError.json, globalError.position := Missing, 0;
    parseEnd, t := 0, Bare(NULL, NULL);
    if value.Missing? {
      return NULL, 0, t;
    }
    WithNulTerminated(value.text);
    var content := WithNul(value.text);
    ghost var was, r := heap.mem, P.Parse(codec, content, requireNullTerminated);
    item := heap.NewItem();
    if item == NULL {
      globalError.json := value;
      return;
    }
    var buffer := new ParseBuffer(content, codec, heap);
    var ok;
    ok, t := ParseRoot(buffer, item, requireNullTerminated, was, r);
    if ok {
      return item, buffer.offset, t;
    }
    RootHead(t);
    RootDiscarded(was, heap.mem, t);
    heap.Delete(item, [t]);
    item := NULL;
    parseEnd := if buffer.offset < |content| then buffer.offset else |content| - 1;
    globalError.json, globalError.position := value, parseEnd;
  }
}
